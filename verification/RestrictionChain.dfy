/** A chain of restriction records is as strong as its weakest link. The records are mutated in
    place until a pass changes none. */
module RestrictionChain {
  import opened Values
  import opened Restriction

  /** One entry of the restriction receipt. */
  class Record {
    const name: string
    const original: Option<string>
    var state: Verdict
    var reasons: seq<string>

    constructor (name: string, original: Option<string>, state: Verdict, reasons: seq<string>)
      ensures this.name == name && this.original == original && this.state == state && this.reasons == reasons
    {
      this.name, this.original, this.state, this.reasons := name, original, state, reasons;
    }
  }

  const CHAIN_REASON := "original_not_verified"

  ghost predicate Distinct(rs: seq<Record>) {
    forall i, j :: 0 <= i < j < |rs| ==> rs[i] != rs[j]
  }

  /** `by_name`: the place of the last record of each name. */
  function ByName(rs: seq<Record>): (m: map<string, nat>)
    ensures forall k :: k in m ==> m[k] < |rs| && rs[m[k]].name == k
  {
    if rs == [] then map[] else ByName(rs[..|rs| - 1])[rs[|rs| - 1].name := |rs| - 1]
  }

  /** The record a record's original has, when it is one of the list. */
  function Up(rs: seq<Record>, i: nat): (u: Option<nat>)
    requires i < |rs|
    ensures u.Some? ==> u.value < |rs|
  {
    match rs[i].original
    case None => None
    case Some(name) => if name in ByName(rs) then Some(ByName(rs)[name]) else None
  }

  lemma {:induction false} LastOfName(rs: seq<Record>, k: string)
    ensures k in ByName(rs) <==> exists i :: 0 <= i < |rs| && rs[i].name == k
    ensures k in ByName(rs) ==> forall i :: ByName(rs)[k] < i < |rs| ==> rs[i].name != k
    decreases |rs|
  {
    if rs != [] {
      var n := |rs| - 1;
      assert forall i :: 0 <= i < n ==> rs[..n][i] == rs[i];
      LastOfName(rs[..n], k);
    }
  }

  /** The link goes to the last record named as the original, and there is none exactly when no record has that name. */
  lemma UpMeans(rs: seq<Record>, i: nat)
    requires i < |rs|
    ensures Up(rs, i).None? <==> forall j :: 0 <= j < |rs| ==> rs[i].original != Some(rs[j].name)
    ensures Up(rs, i).Some? ==>
              && rs[i].original == Some(rs[Up(rs, i).value].name)
              && forall j :: Up(rs, i).value < j < |rs| ==> rs[i].original != Some(rs[j].name)
  {
    if rs[i].original.Some? { LastOfName(rs, rs[i].original.value); }
  }

  /** `j` is `n` links up from `i`. */
  ghost predicate Reaches(rs: seq<Record>, i: nat, j: nat, n: nat)
    requires i < |rs|
    decreases n
  {
    if n == 0 then i == j
    else Up(rs, i).Some? && Reaches(rs, Up(rs, i).value, j, n - 1)
  }

  function States(rs: seq<Record>): (s: seq<Verdict>)
    reads rs
    ensures |s| == |rs| && forall i :: 0 <= i < |rs| ==> s[i] == rs[i].state
  {
    seq(|rs|, i requires 0 <= i < |rs| reads rs => rs[i].state)
  }

  /** Some record at or above `i` was not verified to begin with. */
  ghost predicate Tainted(rs: seq<Record>, s: seq<Verdict>, i: nat)
    requires i < |rs| == |s|
  {
    exists j: nat, n: nat :: j < |rs| && Reaches(rs, i, j, n) && s[j] != Verified
  }

  /** The states the chain rule prescribes, from the states before it. */
  ghost function Weakest(rs: seq<Record>, s: seq<Verdict>): (w: seq<Verdict>)
    requires |rs| == |s|
    ensures |w| == |s|
  {
    seq(|s|, i requires 0 <= i < |s| => if s[i] == Verified && Tainted(rs, s, i) then NotEvaluated else s[i])
  }

  function CountVerified(s: seq<Verdict>): nat {
    if s == [] then 0 else (if s[0] == Verified then 1 else 0) + CountVerified(s[1..])
  }

  lemma {:induction false} CountDrops(s: seq<Verdict>, i: nat)
    requires i < |s| && s[i] == Verified
    ensures CountVerified(s[i := NotEvaluated]) == CountVerified(s) - 1
    decreases |s|
  {
    if i > 0 {
      CountDrops(s[1..], i - 1);
      assert s[i := NotEvaluated][1..] == s[1..][i - 1 := NotEvaluated];
    } else {
      assert s[0 := NotEvaluated][1..] == s[1..];
    }
  }

  /** Every state is the initial one, or the record was verified, is tainted and was lowered. */
  ghost predicate Lowered(rs: seq<Record>, s: seq<Verdict>, now: seq<Verdict>)
    requires |rs| == |s| == |now|
  {
    forall i :: 0 <= i < |s| ==> now[i] == s[i] || (s[i] == Verified && now[i] == NotEvaluated && Tainted(rs, s, i))
  }

  /** No verified record has an original that is not. */
  ghost predicate Linked(rs: seq<Record>, now: seq<Verdict>, n: nat)
    requires n <= |rs| == |now|
  {
    forall i :: 0 <= i < n && now[i] == Verified && Up(rs, i).Some? ==> now[Up(rs, i).value] == Verified
  }

  lemma TaintSpreads(rs: seq<Record>, s: seq<Verdict>, now: seq<Verdict>, i: nat)
    requires i < |rs| == |s| == |now| && Lowered(rs, s, now)
    requires Up(rs, i).Some? && now[Up(rs, i).value] != Verified
    ensures Tainted(rs, s, i)
  {
    var u := Up(rs, i).value;
    if now[u] == s[u] {
      assert Reaches(rs, u, u, 0);
      assert Reaches(rs, i, u, 1);
    } else {
      var j: nat, n: nat :| j < |rs| && Reaches(rs, u, j, n) && s[j] != Verified;
      assert Reaches(rs, i, j, n + 1);
    }
  }

  lemma {:induction false} LinkedReaches(rs: seq<Record>, now: seq<Verdict>, i: nat, j: nat, n: nat)
    requires i < |rs| == |now| && j < |rs| && Linked(rs, now, |rs|) && now[i] == Verified && Reaches(rs, i, j, n)
    ensures now[j] == Verified
    decreases n
  {
    if n > 0 { LinkedReaches(rs, now, Up(rs, i).value, j, n - 1); }
  }

  lemma FixpointIsWeakest(rs: seq<Record>, s: seq<Verdict>, now: seq<Verdict>)
    requires |rs| == |s| == |now| && Lowered(rs, s, now) && Linked(rs, now, |rs|)
    ensures now == Weakest(rs, s)
  {
    forall i | 0 <= i < |s| ensures now[i] == Weakest(rs, s)[i] {
      if now[i] == Verified && Tainted(rs, s, i) {
        var j: nat, n: nat :| j < |rs| && Reaches(rs, i, j, n) && s[j] != Verified;
        LinkedReaches(rs, now, i, j, n);
      }
    }
  }

  /** The reasons of a record: one more exactly when it was lowered. */
  ghost predicate Explained(was: seq<seq<string>>, s: seq<Verdict>, now: seq<Verdict>, reasons: seq<seq<string>>)
    requires |was| == |s| == |now| == |reasons|
  {
    forall i :: 0 <= i < |s| ==> reasons[i] == if now[i] == s[i] then was[i] else was[i] + ["original_not_verified"]
  }

  function AllReasons(rs: seq<Record>): (r: seq<seq<string>>)
    reads rs
    ensures |r| == |rs| && forall i :: 0 <= i < |rs| ==> r[i] == rs[i].reasons
  {
    seq(|rs|, i requires 0 <= i < |rs| reads rs => rs[i].reasons)
  }

  /** One record of one pass. */
  method Demote(rs: seq<Record>, i: nat) returns (changed: bool)
    requires i < |rs| && Distinct(rs)
    modifies rs[i]
    ensures changed <==> old(rs[i].state) == Verified && Up(rs, i).Some? && old(rs[Up(rs, i).value].state) != Verified
    ensures States(rs) == if changed then old(States(rs))[i := NotEvaluated] else old(States(rs))
    ensures AllReasons(rs) == if changed then old(AllReasons(rs))[i := old(rs[i].reasons) + [CHAIN_REASON]] else old(AllReasons(rs))
  {
    var up := Up(rs, i);
    changed := rs[i].state == Verified && up.Some? && rs[up.value].state != Verified;
    if changed {
      rs[i].reasons := rs[i].reasons + [CHAIN_REASON];
      rs[i].state := NotEvaluated;
    }
  }

  /** Lowering one record keeps what the loop knows. */
  lemma LowerOne(rs: seq<Record>, s: seq<Verdict>, was: seq<seq<string>>, now: seq<Verdict>, reasons: seq<seq<string>>, i: nat)
    requires i < |rs| == |s| == |now| == |was| == |reasons|
    requires Lowered(rs, s, now) && Explained(was, s, now, reasons)
    requires now[i] == Verified && Up(rs, i).Some? && now[Up(rs, i).value] != Verified
    ensures Lowered(rs, s, now[i := NotEvaluated])
    ensures Explained(was, s, now[i := NotEvaluated], reasons[i := reasons[i] + [CHAIN_REASON]])
    ensures CountVerified(now[i := NotEvaluated]) < CountVerified(now)
  {
    TaintSpreads(rs, s, now, i);
    CountDrops(now, i);
  }

  /** What the loop knows of the records, given the states `s` and reasons `was` before it. */
  ghost predicate Progress(rs: seq<Record>, s: seq<Verdict>, was: seq<seq<string>>)
    requires |rs| == |s| == |was|
    reads rs
  {
    Lowered(rs, s, States(rs)) && Explained(was, s, States(rs), AllReasons(rs))
  }

  lemma LinkedStep(rs: seq<Record>, now: seq<Verdict>, i: nat)
    requires i < |rs| == |now| && Linked(rs, now, i)
    requires now[i] == Verified && Up(rs, i).Some? ==> now[Up(rs, i).value] == Verified
    ensures Linked(rs, now, i + 1)
  {}

  /** One pass over the list. */
  method Pass(rs: seq<Record>, ghost s: seq<Verdict>, ghost was: seq<seq<string>>) returns (changed: bool)
    requires Distinct(rs) && |rs| == |s| == |was| && Progress(rs, s, was)
    modifies rs
    ensures Progress(rs, s, was)
    ensures !changed ==> States(rs) == old(States(rs)) && Linked(rs, States(rs), |rs|)
    ensures changed ==> CountVerified(States(rs)) < old(CountVerified(States(rs)))
  {
    changed := false;
    ghost var before := States(rs);
    for i := 0 to |rs|
      invariant Progress(rs, s, was)
      invariant !changed ==> States(rs) == before && Linked(rs, before, i)
      invariant changed ==> CountVerified(States(rs)) < CountVerified(before)
    {
      ghost var now, reasons := States(rs), AllReasons(rs);
      var lowered := Demote(rs, i);
      if lowered {
        LowerOne(rs, s, was, now, reasons, i);
        changed := true;
      } else {
        assert States(rs) == now && AllReasons(rs) == reasons;
        if !changed { LinkedStep(rs, before, i); }
      }
    }
  }

  /** The chain loop. */
  method SettleChain(rs: seq<Record>)
    requires Distinct(rs)
    modifies rs
    ensures States(rs) == Weakest(rs, old(States(rs)))
    ensures Explained(old(AllReasons(rs)), old(States(rs)), States(rs), AllReasons(rs))
  {
    ghost var s, was := States(rs), AllReasons(rs);
    var changed := true;
    while changed
      invariant Progress(rs, s, was)
      invariant !changed ==> Linked(rs, States(rs), |rs|)
      decreases CountVerified(States(rs)), changed
    {
      changed := Pass(rs, s, was);
    }
    FixpointIsWeakest(rs, s, States(rs));
  }

  /** Everything at or above `i` was verified. */
  ghost predicate AllAbove(rs: seq<Record>, s: seq<Verdict>, i: nat)
    requires i < |rs| == |s|
  {
    forall j: nat, n: nat | j < |rs| && Reaches(rs, i, j, n) :: s[j] == Verified
  }

  /** After the loop a record is verified exactly when it and every record above it were verified before, however the
      list is ordered and whether or not links form a cycle. */
  lemma WeakestLink(rs: seq<Record>, s: seq<Verdict>, i: nat)
    requires i < |rs| == |s|
    ensures Weakest(rs, s)[i] == Verified <==> AllAbove(rs, s, i)
  {
    assert Reaches(rs, i, i, 0);
    assert AllAbove(rs, s, i) ==> s[i] == Verified;
    if !AllAbove(rs, s, i) {
      var j: nat, n: nat :| j < |rs| && Reaches(rs, i, j, n) && s[j] != Verified;
    }
    if Tainted(rs, s, i) {
      var j: nat, n: nat :| j < |rs| && Reaches(rs, i, j, n) && s[j] != Verified;
    }
  }

  /** Applying the rule again changes nothing. */
  lemma WeakestIsStable(rs: seq<Record>, s: seq<Verdict>)
    requires |rs| == |s|
    ensures Weakest(rs, Weakest(rs, s)) == Weakest(rs, s)
  {
    var w := Weakest(rs, s);
    forall i | 0 <= i < |w| && w[i] == Verified ensures !Tainted(rs, w, i) {
      if j: nat, n: nat :| j < |rs| && Reaches(rs, i, j, n) && w[j] != Verified {
        WeakestLink(rs, s, i);
        assert s[j] == Verified;
        var k: nat, m: nat :| k < |rs| && Reaches(rs, j, k, m) && s[k] != Verified;
        ReachesFurther(rs, i, j, k, n, m);
      }
    }
  }

  lemma {:induction false} ReachesFurther(rs: seq<Record>, i: nat, j: nat, k: nat, n: nat, m: nat)
    requires i < |rs| && j < |rs| && k < |rs| && Reaches(rs, i, j, n) && Reaches(rs, j, k, m)
    ensures Reaches(rs, i, k, n + m)
    decreases n
  {
    if n > 0 { ReachesFurther(rs, Up(rs, i).value, j, k, n - 1, m); }
  }
}
