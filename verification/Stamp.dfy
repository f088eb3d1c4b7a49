/** Concurrent stamping of one pack: any number of stampers, each a read-modify-write of the file under an exclusive
    lock on its directory, ended by an atomic rename. Every step of every stamper may fail. */
module Stamp {
  import opened Values

  type Anchor = Json

  /** A pack on disk: the members outside `anchors`, and `anchors` when present. */
  datatype Pack = Pack(rest: Json, anchors: Option<seq<Anchor>>)

  function AnchorsOf(p: Pack): seq<Anchor> { match p.anchors case None => [] case Some(a) => a }

  /** `setdefault("anchors", []).append(a)`. */
  function Append(p: Pack, a: Anchor): Pack { Pack(p.rest, Some(AnchorsOf(p) + [a])) }

  /** What a stamper checks: the format and the declared digest, which say nothing about `anchors`, and the size of what
      it is about to write. */
  datatype Checks = Checks(admits: Json -> bool, fits: Pack -> bool)

  predicate Stampable(c: Checks, p: Pack) { c.admits(p.rest) && (p.anchors.Some? ==> p.anchors.value != []) }

  type Pid = nat

  datatype Stage =
    | Opened
    | Holding
    | Loaded(pack: Pack)
    | Obtained(pack: Pack, anchor: Anchor)
    | Written(pack: Pack, anchor: Anchor)
    | Replaced(anchor: Anchor, count: nat)
    | Succeeded(anchor: Anchor, count: nat)
    | Failed

  /** The directory lock is held, or believed to be. */
  predicate Inside(s: Stage) { s.Holding? || s.Loaded? || s.Obtained? || s.Written? || s.Replaced? }

  datatype Entry = Entry(pid: Pid, anchor: Anchor)

  /** The file, the lock, the stampers started so far and the renames completed so far. */
  datatype System = System(file: Pack, holder: Option<Pid>, stages: map<Pid, Stage>, log: seq<Entry>)

  datatype Action =
    | Open(pid: Pid)
    | Acquire(pid: Pid)
    | Load(pid: Pid)
    | Obtain(pid: Pid, anchor: Anchor)
    | Write(pid: Pid)
    | Replace(pid: Pid)
    | Release(pid: Pid)
    | Fail(pid: Pid)

  function At(s: System, pid: Pid): Option<Stage> { if pid in s.stages then Some(s.stages[pid]) else None }

  function Enter(s: System, pid: Pid, stage: Stage): System { s.(stages := s.stages[pid := stage]) }

  function Freed(s: System, pid: Pid): System { if s.holder == Some(pid) then s.(holder := None) else s }

  /** One step of one stamper, None when it cannot happen now. Without `locking` the lock is granted to everyone. */
  function Step(c: Checks, locking: bool, s: System, a: Action): Option<System> {
    match (a, At(s, a.pid))
    case (Open(pid), None) => Some(Enter(s, pid, Opened))
    case (Acquire(pid), Some(Opened)) =>
      if locking && s.holder.Some? then None else Some(Enter(s, pid, Holding).(holder := Some(pid)))
    case (Load(pid), Some(Holding)) => if Stampable(c, s.file) then Some(Enter(s, pid, Loaded(s.file))) else None
    case (Obtain(pid, anchor), Some(Loaded(p))) => Some(Enter(s, pid, Obtained(p, anchor)))
    case (Write(pid), Some(Obtained(p, anchor))) =>
      if c.fits(Append(p, anchor)) then Some(Enter(s, pid, Written(Append(p, anchor), anchor))) else None
    case (Replace(pid), Some(Written(p, anchor))) =>
      Some(Enter(s, pid, Replaced(anchor, |AnchorsOf(p)|)).(file := p, log := s.log + [Entry(pid, anchor)]))
    case (Release(pid), Some(Replaced(anchor, n))) => Some(Freed(Enter(s, pid, Succeeded(anchor, n)), pid))
    case (Fail(pid), Some(stage)) =>
      if stage.Succeeded? || stage.Failed? then None else Some(Freed(Enter(s, pid, Failed), pid))
    case _ => None
  }

  /** The state after a run, None when some action could not happen. */
  function Run(c: Checks, locking: bool, s: System, actions: seq<Action>): Option<System> {
    if actions == [] then Some(s)
    else
      match Run(c, locking, s, actions[..|actions| - 1])
      case None => None
      case Some(t) => Step(c, locking, t, actions[|actions| - 1])
  }

  function Start(p: Pack): System { System(p, None, map[], []) }

  function Logged(log: seq<Entry>): (r: seq<Anchor>)
    ensures |r| == |log|
  {
    if log == [] then [] else Logged(log[..|log| - 1]) + [log[|log| - 1].anchor]
  }

  /** What a stamper knows at its stage. */
  ghost predicate Knows(s: System, initial: Pack, pid: Pid, stage: Stage) {
    match stage
    case Loaded(p) => p == s.file
    case Obtained(p, _) => p == s.file
    case Written(p, a) => p == Append(s.file, a)
    case Replaced(a, n) => Recorded(s, initial, pid, a, n)
    case Succeeded(a, n) => Recorded(s, initial, pid, a, n)
    case _ => true
  }

  /** The rename of `pid` is in the log, at the place its reported count says. */
  ghost predicate Recorded(s: System, initial: Pack, pid: Pid, a: Anchor, n: nat) {
    var k := n - |AnchorsOf(initial)| - 1;
    0 <= k < |s.log| && s.log[k] == Entry(pid, a)
  }

  ghost predicate Invariant(s: System, initial: Pack) {
    && s.file.rest == initial.rest
    && AnchorsOf(s.file) == AnchorsOf(initial) + Logged(s.log)
    && (s.log == [] ==> s.file == initial)
    && (s.log != [] ==> s.file.anchors.Some?)
    && (forall pid :: pid in s.stages && Inside(s.stages[pid]) ==> s.holder == Some(pid))
    && (s.holder.Some? ==> s.holder.value in s.stages && Inside(s.stages[s.holder.value]))
    && (forall pid :: pid in s.stages ==> Knows(s, initial, pid, s.stages[pid]))
    && (forall k :: 0 <= k < |s.log| ==> s.log[k].pid in s.stages && !BeforeRename(s.stages[s.log[k].pid]))
    && (forall j, k :: 0 <= j < k < |s.log| ==> s.log[j].pid != s.log[k].pid)
  }

  predicate BeforeRename(s: Stage) { s.Opened? || (Inside(s) && !s.Replaced?) }

  lemma LoggedSnoc(log: seq<Entry>, e: Entry)
    ensures Logged(log + [e]) == Logged(log) + [e.anchor]
  {
    assert (log + [e])[..|log|] == log;
  }

  /** A step that leaves the file and the log alone: one stamper changes stage, and holds the lock if it is inside. */
  lemma StageKeeps(s: System, initial: Pack, pid: Pid, stage: Stage, t: System)
    requires Invariant(s, initial) && t.stages == s.stages[pid := stage] && t.file == s.file && t.log == s.log
    requires Knows(s, initial, pid, stage)
    requires Inside(stage) ==> t.holder == Some(pid) && (s.holder.None? || s.holder == Some(pid))
    requires !Inside(stage) ==> t.holder == if s.holder == Some(pid) then None else s.holder
    requires BeforeRename(stage) ==> pid !in s.stages || BeforeRename(s.stages[pid])
    ensures Invariant(t, initial)
  {
    forall q | q in t.stages && Inside(t.stages[q]) ensures t.holder == Some(q) {
      if q != pid { assert s.holder == Some(q); }
    }
    forall q | q in t.stages ensures Knows(t, initial, q, t.stages[q]) {
      assert Knows(s, initial, q, t.stages[q]);
    }
  }

  /** Every step of every stamper, failing or not, keeps the invariant. */
  lemma StepKeeps(c: Checks, s: System, initial: Pack, a: Action)
    requires Invariant(s, initial) && Step(c, true, s, a).Some?
    ensures Invariant(Step(c, true, s, a).value, initial)
  {
    var t := Step(c, true, s, a).value;
    assert a.pid in s.stages ==> Knows(s, initial, a.pid, s.stages[a.pid]);
    if a.Replace? {
      RenameKeeps(s, initial, a.pid, t);
    } else {
      StageKeeps(s, initial, a.pid, t.stages[a.pid], t);
    }
  }

  /** The state right after `pid` renames its file over the pack. */
  ghost predicate Renamed(s: System, pid: Pid, t: System) {
    && pid in s.stages && s.stages[pid].Written?
    && t == Enter(s, pid, Replaced(s.stages[pid].anchor, |AnchorsOf(s.stages[pid].pack)|))
              .(file := s.stages[pid].pack, log := s.log + [Entry(pid, s.stages[pid].anchor)])
  }

  lemma RenameAppends(s: System, initial: Pack, pid: Pid, t: System)
    requires Invariant(s, initial) && Renamed(s, pid, t)
    ensures t.file == Append(s.file, s.stages[pid].anchor) && AnchorsOf(t.file) == AnchorsOf(initial) + Logged(t.log)
  {
    var a := s.stages[pid].anchor;
    assert Knows(s, initial, pid, s.stages[pid]);
    LoggedSnoc(s.log, Entry(pid, a));
    assert AnchorsOf(initial) + (Logged(s.log) + [a]) == AnchorsOf(initial) + Logged(s.log) + [a];
  }

  lemma RenameLogs(s: System, initial: Pack, pid: Pid, t: System)
    requires Invariant(s, initial) && Renamed(s, pid, t)
    ensures forall k :: 0 <= k < |t.log| ==> t.log[k].pid in t.stages && !BeforeRename(t.stages[t.log[k].pid])
    ensures forall j, k :: 0 <= j < k < |t.log| ==> t.log[j].pid != t.log[k].pid
  {
    hide Knows, Logged, AnchorsOf;
    assert forall k :: 0 <= k < |s.log| ==> t.log[k] == s.log[k] && s.log[k].pid != pid;
    assert t.log[|s.log|].pid == pid;
  }

  lemma RenameKnows(s: System, initial: Pack, pid: Pid, t: System, q: Pid)
    requires Invariant(s, initial) && Renamed(s, pid, t) && q in t.stages
    ensures Knows(t, initial, q, t.stages[q])
  {
    RenameAppends(s, initial, pid, t);
    if q != pid {
      assert !Inside(s.stages[q]) && Knows(s, initial, q, s.stages[q]);
    } else {
      assert t.log[|s.log|] == Entry(pid, s.stages[pid].anchor);
    }
  }

  lemma RenameKeeps(s: System, initial: Pack, pid: Pid, t: System)
    requires Invariant(s, initial) && Renamed(s, pid, t)
    ensures Invariant(t, initial)
  {
    hide Knows, Logged, AnchorsOf, Append;
    RenameAppends(s, initial, pid, t);
    RenameLogs(s, initial, pid, t);
    WholePack(s.file, s.stages[pid].anchor);
    forall q | q in t.stages ensures Knows(t, initial, q, t.stages[q]) { RenameKnows(s, initial, pid, t, q); }
  }

  lemma WholePack(p: Pack, a: Anchor)
    ensures Append(p, a).rest == p.rest && Append(p, a).anchors.Some?
  {}

  /** In every interleaving of any number of stampers, whatever fails, the file is a whole pack that differs from the
      initial one in `anchors` only: the initial anchors, then one per completed rename, in order. */
  lemma {:induction false} RunsKeep(c: Checks, initial: Pack, actions: seq<Action>)
    ensures var r := Run(c, true, Start(initial), actions); r.Some? ==> Invariant(r.value, initial)
    decreases |actions|
  {
    if actions != [] {
      RunsKeep(c, initial, actions[..|actions| - 1]);
      var t := Run(c, true, Start(initial), actions[..|actions| - 1]);
      if t.Some? && Step(c, true, t.value, actions[|actions| - 1]).Some? {
        StepKeeps(c, t.value, initial, actions[|actions| - 1]);
      }
    }
  }

  lemma StepGrows(c: Checks, locking: bool, s: System, a: Action)
    requires Step(c, locking, s, a).Some?
    ensures s.log <= Step(c, locking, s, a).value.log
    ensures forall pid :: pid in s.stages && s.stages[pid].Succeeded? ==> At(Step(c, locking, s, a).value, pid) == Some(s.stages[pid])
  {}

  lemma {:induction false} RunGrows(c: Checks, locking: bool, s: System, actions: seq<Action>)
    requires Run(c, locking, s, actions).Some?
    ensures var t := Run(c, locking, s, actions).value;
            s.log <= t.log && forall pid :: pid in s.stages && s.stages[pid].Succeeded? ==> At(t, pid) == Some(s.stages[pid])
    decreases |actions|
  {
    if actions != [] {
      RunGrows(c, locking, s, actions[..|actions| - 1]);
      StepGrows(c, locking, Run(c, locking, s, actions[..|actions| - 1]).value, actions[|actions| - 1]);
    }
  }

  lemma {:induction false} RunConcat(c: Checks, locking: bool, s: System, a: seq<Action>, b: seq<Action>)
    ensures Run(c, locking, s, a + b)
         == match Run(c, locking, s, a) case None => None case Some(t) => Run(c, locking, t, b)
    decreases |b|
  {
    if b == [] {
      assert a + b == a;
    } else {
      assert (a + b)[..|a + b| - 1] == a + b[..|b| - 1];
      RunConcat(c, locking, s, a, b[..|b| - 1]);
    }
  }

  lemma {:induction false} LoggedAt(log: seq<Entry>, k: nat)
    requires k < |log|
    ensures Logged(log)[k] == log[k].anchor
    decreases |log|
  {
    if k < |log| - 1 { LoggedAt(log[..|log| - 1], k); }
  }

  /** No reported success is ever lost: once a stamper has reported `count` anchors, its own anchor is the last of those
      `count` in the file, then and after any further steps of anyone. */
  lemma SuccessIsKept(c: Checks, initial: Pack, before: seq<Action>, after: seq<Action>, pid: Pid)
    requires Run(c, true, Start(initial), before).Some? && Run(c, true, Start(initial), before + after).Some?
    requires var s := Run(c, true, Start(initial), before).value; pid in s.stages && s.stages[pid].Succeeded?
    ensures var stage := Run(c, true, Start(initial), before).value.stages[pid];
            var file := Run(c, true, Start(initial), before + after).value.file;
            0 < stage.count <= |AnchorsOf(file)| && AnchorsOf(file)[stage.count - 1] == stage.anchor
  {
    hide Run;
    var s := Run(c, true, Start(initial), before).value;
    RunConcat(c, true, Start(initial), before, after);
    var t := Run(c, true, s, after).value;
    RunGrows(c, true, s, after);
    RunsKeep(c, initial, before + after);
    SucceededIsLast(t, initial, pid);
  }

  lemma SucceededIsLast(t: System, initial: Pack, pid: Pid)
    requires Invariant(t, initial) && pid in t.stages && t.stages[pid].Succeeded?
    ensures var stage := t.stages[pid];
            0 < stage.count <= |AnchorsOf(t.file)| && AnchorsOf(t.file)[stage.count - 1] == stage.anchor
  {
    hide Logged, AnchorsOf;
    assert Knows(t, initial, pid, t.stages[pid]);
    LoggedAt(t.log, t.stages[pid].count - |AnchorsOf(initial)| - 1);
  }

  /** Two stampers that report success report different counts: each has an anchor of its own. */
  lemma SuccessesAreDistinct(c: Checks, initial: Pack, actions: seq<Action>, p: Pid, q: Pid)
    requires Run(c, true, Start(initial), actions).Some?
    requires var s := Run(c, true, Start(initial), actions).value;
             p in s.stages && q in s.stages && s.stages[p].Succeeded? && s.stages[q].Succeeded? && p != q
    ensures var s := Run(c, true, Start(initial), actions).value; s.stages[p].count != s.stages[q].count
  {
    RunsKeep(c, initial, actions);
    var s := Run(c, true, Start(initial), actions).value;
    assert Knows(s, initial, p, s.stages[p]) && Knows(s, initial, q, s.stages[q]);
  }

  lemma Then(c: Checks, initial: Pack, actions: seq<Action>, s: System, a: Action) returns (longer: seq<Action>, t: System)
    requires Run(c, false, Start(initial), actions) == Some(s) && Step(c, false, s, a).Some?
    ensures Run(c, false, Start(initial), longer) == Some(t) && t == Step(c, false, s, a).value
  {
    longer, t := actions + [a], Step(c, false, s, a).value;
    assert longer[..|longer| - 1] == actions;
  }

  /** From the opening of the directory to the written temporary file, over whatever the file holds. */
  lemma Prepare(c: Checks, initial: Pack, actions: seq<Action>, s: System, pid: Pid, x: Anchor)
    returns (longer: seq<Action>, t: System)
    requires Run(c, false, Start(initial), actions) == Some(s) && pid !in s.stages
    requires Stampable(c, s.file) && forall p :: c.fits(p)
    ensures Run(c, false, Start(initial), longer) == Some(t) && t.file == s.file
    ensures t.stages == s.stages[pid := Written(Append(s.file, x), x)]
  {
    hide Run;
    longer, t := Then(c, initial, actions, s, Open(pid));
    longer, t := Then(c, initial, longer, t, Acquire(pid));
    longer, t := Then(c, initial, longer, t, Load(pid));
    longer, t := Then(c, initial, longer, t, Obtain(pid, x));
    assert c.fits(Append(s.file, x));
    longer, t := Then(c, initial, longer, t, Write(pid));
    assert t.stages == s.stages[pid := Written(Append(s.file, x), x)];
  }

  /** The rename and the report of success. */
  lemma Finish(c: Checks, initial: Pack, actions: seq<Action>, s: System, pid: Pid) returns (longer: seq<Action>, t: System)
    requires Run(c, false, Start(initial), actions) == Some(s) && pid in s.stages && s.stages[pid].Written?
    ensures Run(c, false, Start(initial), longer) == Some(t) && t.file == s.stages[pid].pack
    ensures t.stages == s.stages[pid := Succeeded(s.stages[pid].anchor, |AnchorsOf(s.stages[pid].pack)|)]
  {
    longer, t := Then(c, initial, actions, s, Replace(pid));
    longer, t := Then(c, initial, longer, t, Release(pid));
  }

  /** The lock is what this rests on: without it two stampers can both report success and the file keep one anchor. */
  lemma WithoutLockASuccessIsLost(c: Checks, initial: Pack, x: Anchor, y: Anchor) returns (actions: seq<Action>, s: System)
    requires Stampable(c, initial) && (forall p :: c.fits(p)) && x != y && x !in AnchorsOf(initial)
    ensures Run(c, false, Start(initial), actions) == Some(s)
    ensures 0 in s.stages && s.stages[0].Succeeded? && s.stages[0].anchor == x
    ensures 1 in s.stages && s.stages[1].Succeeded? && s.stages[1].anchor == y
    ensures x !in AnchorsOf(s.file)
  {
    actions, s := [], Start(initial);
    actions, s := Prepare(c, initial, actions, s, 0, x);
    actions, s := Prepare(c, initial, actions, s, 1, y);
    actions, s := Finish(c, initial, actions, s, 0);
    actions, s := Finish(c, initial, actions, s, 1);
  }
}
