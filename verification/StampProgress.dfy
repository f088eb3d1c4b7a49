/** What every step of a stamper needs and does under the lock, and that a stamper whose pack can be stamped gets there. */
module StampProgress {
  import opened Values
  import opened Stamp

  /** The anchors of the file, none when it has no such member. */
  function Held(p: Pack): seq<Anchor> { if p.anchors == None then [] else p.anchors.value }

  /** The file with one more anchor behind its own. */
  function WithOneMore(p: Pack, x: Anchor): Pack { Pack(p.rest, Some(Held(p) + [x])) }

  /** A pack of this format whose digest holds, without an empty list of anchors. */
  ghost predicate CanBeStamped(c: Checks, p: Pack) { c.admits(p.rest) && p.anchors != Some([]) }

  ghost predicate NobodyInside(s: System) {
    forall q :: q in s.stages ==> s.stages[q] in {Opened, Failed} || s.stages[q].Succeeded?
  }

  /** The state that some interleaving reaches under the lock. */
  ghost predicate Reached(c: Checks, initial: Pack, actions: seq<Action>, s: System) {
    Run(c, true, Start(initial), actions) == Some(s)
  }

  /** What a step needs. */
  ghost predicate Enabled(c: Checks, s: System, a: Action) {
    match a
    case Open(pid) => pid !in s.stages
    case Acquire(pid) => pid in s.stages && s.stages[pid] == Opened && NobodyInside(s)
    case Load(pid) => pid in s.stages && s.stages[pid] == Holding && CanBeStamped(c, s.file)
    case Obtain(pid, x) => pid in s.stages && s.stages[pid] == Loaded(s.file)
    case Write(pid) =>
      pid in s.stages && s.stages[pid].Obtained? && s.stages[pid].pack == s.file && c.fits(WithOneMore(s.file, s.stages[pid].anchor))
    case Replace(pid) => pid in s.stages && s.stages[pid].Written? && s.stages[pid].pack == WithOneMore(s.file, s.stages[pid].anchor)
    case Release(pid) => pid in s.stages && s.stages[pid].Replaced?
    case Fail(pid) => pid in s.stages && s.stages[pid] != Failed && !s.stages[pid].Succeeded?
  }

  /** The stage a step leads to. */
  ghost predicate LeadsTo(s: System, a: Action, stage: Stage) {
    match a
    case Open(_) => stage == Opened
    case Acquire(_) => stage == Holding
    case Load(_) => stage == Loaded(s.file)
    case Obtain(_, x) => stage == Obtained(s.file, x)
    case Write(pid) => pid in s.stages && s.stages[pid].Obtained? &&
                       stage == Written(WithOneMore(s.file, s.stages[pid].anchor), s.stages[pid].anchor)
    case Replace(pid) => pid in s.stages && s.stages[pid].Written? && stage == Replaced(s.stages[pid].anchor, |Held(s.file)| + 1)
    case Release(pid) => pid in s.stages && s.stages[pid].Replaced? && stage == Succeeded(s.stages[pid].anchor, s.stages[pid].count)
    case Fail(_) => stage == Failed
  }

  /** What a step does: its stamper goes to the next stage, the lock is taken or freed, and only a rename changes the file. */
  ghost predicate Does(s: System, a: Action, t: System) {
    && a.pid in t.stages && LeadsTo(s, a, t.stages[a.pid])
    && (forall q :: q != a.pid ==> (q in t.stages <==> q in s.stages) && (q in s.stages ==> t.stages[q] == s.stages[q]))
    && (t.holder == if a.Acquire? then Some(a.pid)
                    else if (a.Release? || a.Fail?) && s.holder == Some(a.pid) then None else s.holder)
    && (if a.Replace? then
          a.pid in s.stages && s.stages[a.pid].Written? && t.file == WithOneMore(s.file, s.stages[a.pid].anchor)
        else t.file == s.file)
  }

  lemma HolderIsInside(s: System, initial: Pack)
    requires Invariant(s, initial)
    ensures s.holder == None <==> NobodyInside(s)
  {
    if s.holder.Some? { assert Inside(s.stages[s.holder.value]); }
    if s.holder == None {
      forall q | q in s.stages ensures s.stages[q] in {Opened, Failed} || s.stages[q].Succeeded? { assert !Inside(s.stages[q]); }
    }
  }

  lemma HeldIs(p: Pack)
    ensures AnchorsOf(p) == Held(p) && forall x :: Append(p, x) == WithOneMore(p, x)
  {}

  /** In every reachable state, each step of each stamper can happen exactly when its need is met, and does just that. An
      opened stamper acquires the lock exactly when nobody is inside. */
  lemma StepsExactly(c: Checks, initial: Pack, actions: seq<Action>, s: System, a: Action)
    requires Reached(c, initial, actions, s)
    ensures Step(c, true, s, a).Some? <==> Enabled(c, s, a)
    ensures Step(c, true, s, a).Some? ==> Does(s, a, Step(c, true, s, a).value)
  {
    hide Invariant, Recorded, Append, AnchorsOf, Held, WithOneMore, NobodyInside, Run;
    RunsKeep(c, initial, actions);
    HolderIsInside(s, initial);
    HeldIs(s.file);
    StageKnows(s, initial, a.pid);
    AddsOne(s.file);
    StampableIs(c, s.file);
  }

  lemma StageKnows(s: System, initial: Pack, pid: Pid)
    requires Invariant(s, initial)
    ensures pid in s.stages ==> Knows(s, initial, pid, s.stages[pid])
  {}

  lemma AddsOne(p: Pack)
    ensures forall x :: |AnchorsOf(Append(p, x))| == |Held(p)| + 1
  {}

  lemma StampableIs(c: Checks, p: Pack)
    ensures Stampable(c, p) <==> CanBeStamped(c, p)
  {}

  // ------------------------------------------------------------------ a stamper gets there

  /** The steps of one stamper on its own. */
  function Alone(pid: Pid, x: Anchor): seq<Action> {
    [Open(pid), Acquire(pid), Load(pid), Obtain(pid, x), Write(pid), Replace(pid), Release(pid)]
  }

  /** One stamper is at this stage, the others where they were in `s`. */
  ghost predicate OnlyMoved(s: System, t: System, pid: Pid, stage: Stage) {
    pid in t.stages && t.stages[pid] == stage &&
    forall q :: q != pid ==> (q in t.stages <==> q in s.stages) && (q in s.stages ==> t.stages[q] == s.stages[q])
  }

  lemma Next(c: Checks, initial: Pack, actions: seq<Action>, s: System, a: Action) returns (longer: seq<Action>, t: System)
    requires Reached(c, initial, actions, s) && Enabled(c, s, a)
    ensures longer == actions + [a] && Reached(c, initial, longer, t) && Does(s, a, t)
  {
    hide Run, Enabled, Does, Step;
    StepsExactly(c, initial, actions, s, a);
    longer, t := actions + [a], Step(c, true, s, a).value;
    RunNext(c, initial, actions, s, a);
  }

  lemma RunNext(c: Checks, initial: Pack, actions: seq<Action>, s: System, a: Action)
    requires Reached(c, initial, actions, s)
    ensures Run(c, true, Start(initial), actions + [a]) == Step(c, true, s, a)
  {
    hide Step;
    assert (actions + [a])[..|actions + [a]| - 1] == actions;
  }

  /** Into the lock, with what the file holds. */
  lemma GetsIn(c: Checks, initial: Pack, actions: seq<Action>, s: System, pid: Pid) returns (longer: seq<Action>, t: System)
    requires Reached(c, initial, actions, s) && NobodyInside(s) && pid !in s.stages && CanBeStamped(c, s.file)
    ensures longer == actions + [Open(pid)] + [Acquire(pid)] + [Load(pid)] && Reached(c, initial, longer, t)
    ensures OnlyMoved(s, t, pid, Loaded(s.file)) && t.file == s.file && t.holder == Some(pid)
  {
    hide Reached, CanBeStamped, WithOneMore, Held;
    longer, t := Next(c, initial, actions, s, Open(pid));
    longer, t := Next(c, initial, longer, t, Acquire(pid));
    longer, t := Next(c, initial, longer, t, Load(pid));
  }

  /** From there to the rename and out of the lock. */
  lemma GetsOut(c: Checks, initial: Pack, actions: seq<Action>, s: System, pid: Pid, x: Anchor)
    returns (longer: seq<Action>, t: System)
    requires Reached(c, initial, actions, s) && pid in s.stages && s.stages[pid] == Loaded(s.file) && s.holder == Some(pid)
    requires c.fits(WithOneMore(s.file, x))
    ensures longer == actions + [Obtain(pid, x)] + [Write(pid)] + [Replace(pid)] + [Release(pid)] && Reached(c, initial, longer, t)
    ensures OnlyMoved(s, t, pid, Succeeded(x, |Held(s.file)| + 1)) && t.file == WithOneMore(s.file, x) && t.holder == None
  {
    hide Reached, CanBeStamped, WithOneMore, Held, NobodyInside;
    longer, t := Next(c, initial, actions, s, Obtain(pid, x));
    longer, t := Next(c, initial, longer, t, Write(pid));
    longer, t := Next(c, initial, longer, t, Replace(pid));
    longer, t := Next(c, initial, longer, t, Release(pid));
  }

  /** From every reachable state in which nobody is inside and the file can be stamped, a new stamper whose anchor fits goes
      all the way when left alone: it reports one anchor more than there were, the file is the old one with its anchor
      behind, and nobody is inside. */
  lemma AloneSucceeds(c: Checks, initial: Pack, actions: seq<Action>, s: System, pid: Pid, x: Anchor) returns (t: System)
    requires Reached(c, initial, actions, s) && s.holder == None && pid !in s.stages
    requires CanBeStamped(c, s.file) && c.fits(WithOneMore(s.file, x))
    ensures Reached(c, initial, actions + Alone(pid, x), t)
    ensures OnlyMoved(s, t, pid, Succeeded(x, |Held(s.file)| + 1)) && t.file == WithOneMore(s.file, x) && t.holder == None
  {
    hide Invariant, CanBeStamped, WithOneMore, Held, Run;
    RunsKeep(c, initial, actions);
    HolderIsInside(s, initial);
    var longer, u := GetsIn(c, initial, actions, s, pid);
    longer, t := GetsOut(c, initial, longer, u, pid, x);
    assert longer == actions + Alone(pid, x);
  }

  /** Whoever holds the lock can give it up at once: it can always fail, which leaves the file as it is, and once it has
      renamed it can release and report success. Either way nobody is inside. */
  lemma HolderCanLeave(c: Checks, initial: Pack, actions: seq<Action>, s: System, pid: Pid)
    requires Reached(c, initial, actions, s) && s.holder == Some(pid)
    ensures var t := Step(c, true, s, Fail(pid));
            t.Some? && t.value.holder == None && t.value.file == s.file && OnlyMoved(s, t.value, pid, Failed)
    ensures pid in s.stages && s.stages[pid].Replaced? ==>
              var t := Step(c, true, s, Release(pid));
              && t.Some? && t.value.holder == None && t.value.file == s.file
              && OnlyMoved(s, t.value, pid, Succeeded(s.stages[pid].anchor, s.stages[pid].count))
  {
    hide Run, Step, Reached, WithOneMore, Held, CanBeStamped, NobodyInside;
    StepsExactly(c, initial, actions, s, Fail(pid));
    StepsExactly(c, initial, actions, s, Release(pid));
    HolderStage(c, initial, actions, s, pid);
  }

  lemma HolderStage(c: Checks, initial: Pack, actions: seq<Action>, s: System, pid: Pid)
    requires Reached(c, initial, actions, s) && s.holder == Some(pid)
    ensures pid in s.stages && s.stages[pid] != Failed && !s.stages[pid].Succeeded?
  {
    RunsKeep(c, initial, actions);
  }

  // ------------------------------------------------------------------ what is never written

  ghost predicate NothingLoaded(s: System) {
    forall q :: q in s.stages ==> s.stages[q] in {Opened, Holding, Failed}
  }

  /** A pack that cannot be stamped stays as it is, whatever any number of stampers do. */
  lemma {:induction false} UnstampableStays(c: Checks, initial: Pack, actions: seq<Action>)
    requires !CanBeStamped(c, initial)
    ensures var r := Run(c, true, Start(initial), actions); r.Some? ==> r.value.file == initial && NothingLoaded(r.value)
    decreases |actions|
  {
    if actions != [] {
      var n := |actions| - 1;
      UnstampableStays(c, initial, actions[..n]);
      var r := Run(c, true, Start(initial), actions[..n]);
      if r.Some? && Step(c, true, r.value, actions[n]).Some? {
        assert actions[n].pid in r.value.stages ==> r.value.stages[actions[n].pid] in {Opened, Holding, Failed};
      }
    }
  }

  ghost predicate WrittenFits(c: Checks, s: System) {
    forall q :: q in s.stages && s.stages[q].Written? ==> c.fits(s.stages[q].pack)
  }

  /** The file is the initial one or one that fits: none is renamed over it that does not. */
  lemma {:induction false} FileFits(c: Checks, initial: Pack, actions: seq<Action>)
    ensures var r := Run(c, true, Start(initial), actions);
            r.Some? ==> (r.value.file == initial || c.fits(r.value.file)) && WrittenFits(c, r.value)
    decreases |actions|
  {
    if actions != [] {
      var n := |actions| - 1;
      FileFits(c, initial, actions[..n]);
    }
  }
}
