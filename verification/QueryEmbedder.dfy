/** The warm query-embedding helper: helpers, spawning clients, shutdowns, lock probes and crashes
    interleaved over one lifetime lock file and one socket path. */
module QueryEmbedder {
  import opened CorpusTables

  type Pid = nat
  type Inode = nat

  /** Where a helper process stands in its one lifetime. */
  datatype Phase =
    | Waiting                                           // polling for the lifetime lock
    | Locked                                            // owns it, has not cleared the socket path
    | Cleared                                           // has unlinked whatever was at the path
    | Bound(inode: Inode)                               // has bound its listener
    | AtLoop(identity: Inode, loaded: bool)             // at the head of the serving loop
    | Busy(identity: Inode, loaded: bool)               // past the loop guard, serving a request
    | Leaving(recorded: Option<Inode>, loaded: bool)    // in the final block, before its path check
    | Matched(identity: Inode, loaded: bool)            // the check matched, before the unlink
    | Closing(loaded: bool)                             // done with the path, before the model release
    | Released                                          // model released, before the unlock
    | Aborted(loaded: bool)                             // the final block raised: lock given back, not yet gone
    | Exited
  {
    /** Between acquiring the lifetime lock and giving it back. */
    predicate Holding() { !Waiting? && !Aborted? && !Exited? }

    /** Between clearing the path and being done with it. */
    predicate OwnsPath() { Cleared? || Bound? || AtLoop? || Busy? || Leaving? || Matched? }

    predicate Loaded() {
      match this
      case AtLoop(_, loaded) => loaded
      case Busy(_, loaded) => loaded
      case Leaving(_, loaded) => loaded
      case Matched(_, loaded) => loaded
      case Closing(loaded) => loaded
      case Aborted(loaded) => loaded
      case _ => false
    }
  }

  /** What is at the socket path: an inode, and which process bound it. */
  datatype Socket = Socket(inode: Inode, binder: Pid)

  datatype Holder = Helper(pid: Pid) | Probe(pid: Pid)

  datatype State = State(helpers: map<Pid, Phase>, lock: Option<Holder>, path: Option<Socket>)
  {
    predicate In(h: Pid, p: Phase -> bool) { h in helpers && p(helpers[h]) }

    function At(h: Pid, phase: Phase): State { this.(helpers := helpers[h := phase]) }

    /** The path holds the socket with this identity. */
    predicate PathMatches(identity: Inode) { path.Some? && path.value.inode == identity }
  }

  const INITIAL := State(map[], None, None)

  datatype Step =
    | Spawn(h: Pid)                       // a client starts a helper process
    | Acquire(h: Pid)                     // the lock is free: take it
    | GiveUp(h: Pid)                      // the lock deadline passed
    | ClearPath(h: Pid)                   // unlink whatever is at the path
    | Bind(h: Pid, inode: Inode)          // the system may reuse an inode number
    | Record(h: Pid)                      // stat the path for the socket identity
    | Fail(h: Pid)                        // bind, chmod, listen or stat raised: no identity was recorded
    | PassGuard(h: Pid)                   // the loop guard holds: accept a request
    | LeaveLoop(h: Pid)                   // guard false, warm window over, shutdown, or an error
    | Load(h: Pid)                        // serving the request loads the model
    | Serve(h: Pid)                       // the request is served
    | CheckPath(h: Pid)                   // compare the path with the recorded identity
    | UnlinkOwn(h: Pid)
    | ReleaseModel(h: Pid)
    | Unlock(h: Pid)
    | Abort(h: Pid)                       // the path check, the unlink or the model release raised
    | Crash(h: Pid)                       // the process is gone; the kernel drops its lock and its model
    | ProbeLock(c: Pid)                   // a client or another helper tests the lock
    | EndProbe(c: Pid)
    | ClientUnlink(c: Pid)                // a client unlinks the path, whatever is there

  predicate Enabled(s: State, step: Step) {
    match step
    case Spawn(h) => h !in s.helpers
    case Acquire(h) => s.In(h, (p: Phase) => p.Waiting?) && s.lock.None?
    case GiveUp(h) => s.In(h, (p: Phase) => p.Waiting?)
    case ClearPath(h) => s.In(h, (p: Phase) => p.Locked?)
    case Bind(h, _) => s.In(h, (p: Phase) => p.Cleared?) && s.path.None?
    case Record(h) => s.In(h, (p: Phase) => p.Bound?) && s.path.Some?
    case Fail(h) => s.In(h, (p: Phase) => p.Cleared? || p.Bound?)
    case PassGuard(h) => s.In(h, (p: Phase) => p.AtLoop? && s.PathMatches(p.identity))
    case LeaveLoop(h) => s.In(h, (p: Phase) => p.AtLoop? || p.Busy?)
    case Load(h) => s.In(h, (p: Phase) => p.Busy?)
    case Serve(h) => s.In(h, (p: Phase) => p.Busy?)
    case CheckPath(h) => s.In(h, (p: Phase) => p.Leaving?)
    case UnlinkOwn(h) => s.In(h, (p: Phase) => p.Matched?)
    case ReleaseModel(h) => s.In(h, (p: Phase) => p.Closing?)
    case Unlock(h) => s.In(h, (p: Phase) => p.Released?)
    case Abort(h) => s.In(h, (p: Phase) => (p.Leaving? && p.recorded.Some?) || p.Matched? || p.Closing?)
    case Crash(h) => s.In(h, (p: Phase) => !p.Exited?)
    case ProbeLock(_) => s.lock.None?
    case EndProbe(c) => s.lock == Some(Probe(c))
    case ClientUnlink(_) => true
  }

  function Apply(s: State, step: Step): State
    requires Enabled(s, step)
  {
    match step
    case Spawn(h) => s.At(h, Waiting)
    case Acquire(h) => s.At(h, Locked).(lock := Some(Helper(h)))
    case GiveUp(h) => s.At(h, Exited)
    case ClearPath(h) => s.At(h, Cleared).(path := None)
    case Bind(h, inode) => s.At(h, Bound(inode)).(path := Some(Socket(inode, h)))
    case Record(h) => s.At(h, AtLoop(s.path.value.inode, false))
    case Fail(h) => s.At(h, Leaving(None, false))
    case PassGuard(h) => s.At(h, Busy(s.helpers[h].identity, s.helpers[h].loaded))
    case LeaveLoop(h) => s.At(h, Leaving(Some(s.helpers[h].identity), s.helpers[h].loaded))
    case Load(h) => s.At(h, Busy(s.helpers[h].identity, true))
    case Serve(h) => s.At(h, AtLoop(s.helpers[h].identity, s.helpers[h].loaded))
    case CheckPath(h) =>
      var p := s.helpers[h];
      s.At(h, if p.recorded.Some? && s.PathMatches(p.recorded.value) then Matched(p.recorded.value, p.loaded)
              else Closing(p.loaded))
    case UnlinkOwn(h) => s.At(h, Closing(s.helpers[h].loaded)).(path := None)
    case ReleaseModel(h) => s.At(h, Released)
    case Unlock(h) => s.At(h, Exited).(lock := None)
    case Abort(h) => s.At(h, Aborted(s.helpers[h].loaded)).(lock := None)
    case Crash(h) => s.At(h, Exited).(lock := if s.lock == Some(Helper(h)) then None else s.lock)
    case ProbeLock(c) => s.(lock := Some(Probe(c)))
    case EndProbe(_) => s.(lock := None)
    case ClientUnlink(_) => s.(path := None)
  }

  /** The state some steps lead to, if each was enabled in its turn. */
  function RunFrom(from: State, steps: seq<Step>): Option<State> {
    if steps == [] then Some(from)
    else
      match RunFrom(from, steps[..|steps| - 1])
      case None => None
      case Some(before) => if Enabled(before, steps[|steps| - 1]) then Some(Apply(before, steps[|steps| - 1])) else None
  }

  function Run(steps: seq<Step>): Option<State> { RunFrom(INITIAL, steps) }

  predicate Reaches(steps: seq<Step>, s: State) { Run(steps) == Some(s) }

  // ---------------------------------------------------------------- what every run keeps

  /** Holding phases and the lifetime lock name the same helper. */
  ghost predicate LockHeld(s: State) {
    && (forall h :: h in s.helpers && s.helpers[h].Holding() ==> s.lock == Some(Helper(h)))
    && (forall h :: s.lock == Some(Helper(h)) ==> h in s.helpers && s.helpers[h].Holding())
  }

  /** While a helper owns the path, nothing but its own socket can be there, under the identity it
      recorded. */
  ghost predicate PathOwned(s: State, h: Pid) {
    h in s.helpers && s.helpers[h].OwnsPath() ==>
      match s.helpers[h]
      case Cleared => s.path.None?
      case Bound(inode) => s.path.None? || s.path.value == Socket(inode, h)
      case AtLoop(identity, _) => s.path.None? || s.path.value == Socket(identity, h)
      case Busy(identity, _) => s.path.None? || s.path.value == Socket(identity, h)
      case Matched(identity, _) => s.path.None? || s.path.value == Socket(identity, h)
      case Leaving(recorded, _) =>
        s.path.None? || (s.path.value.binder == h && (recorded.Some? ==> s.path.value.inode == recorded.value))
      case _ => true
  }

  ghost predicate Safe(s: State) {
    LockHeld(s) && forall h :: PathOwned(s, h)
  }

  lemma InitialIsSafe()
    ensures Safe(INITIAL)
  {
  }

  /** Every step of every process keeps the invariant. */
  lemma StepKeepsSafe(s: State, step: Step)
    requires Safe(s) && Enabled(s, step)
    ensures Safe(Apply(s, step))
  {
    var t := Apply(s, step);
    forall h ensures PathOwned(t, h) {
      assert PathOwned(s, h);
    }
  }

  lemma {:induction false} RunFromKeepsSafe(from: State, steps: seq<Step>, s: State)
    requires Safe(from) && RunFrom(from, steps) == Some(s)
    ensures Safe(s)
    decreases |steps|
  {
    hide Safe, Enabled, Apply;
    if steps != [] {
      var before := RunFrom(from, steps[..|steps| - 1]).value;
      RunFromKeepsSafe(from, steps[..|steps| - 1], before);
      StepKeepsSafe(before, steps[|steps| - 1]);
    }
  }

  lemma RunIsSafe(steps: seq<Step>, s: State)
    requires Reaches(steps, s)
    ensures Safe(s)
  {
    hide Safe, RunFrom;
    InitialIsSafe();
    RunFromKeepsSafe(INITIAL, steps, s);
  }

  lemma LastStep(steps: seq<Step>, s: State)
    requires Reaches(steps, s) && steps != []
    ensures var front, last := steps[..|steps| - 1], steps[|steps| - 1];
            && Run(front).Some? && Reaches(front, Run(front).value)
            && Enabled(Run(front).value, last) && s == Apply(Run(front).value, last)
  {
  }

  lemma OneMore(steps: seq<Step>, s: State, step: Step)
    requires Reaches(steps, s) && Enabled(s, step)
    ensures Reaches(steps + [step], Apply(s, step))
  {
    hide Enabled, Apply;
    assert (steps + [step])[..|steps|] == steps;
  }

  // ---------------------------------------------------------------- safety over all runs

  /** Of two processes with a resident model, one is a helper whose final block raised. */
  lemma {:induction false} TwoResidentsHaveAborted(steps: seq<Step>, s: State, h: Pid, g: Pid)
    requires Reaches(steps, s) && h != g
    requires s.In(h, (p: Phase) => p.Loaded()) && s.In(g, (p: Phase) => p.Loaded())
    ensures s.helpers[h].Aborted? || s.helpers[g].Aborted?
  {
    hide Reaches;
    RunIsSafe(steps, s);
  }

  /** Every resident model is in the owner of the lifetime lock. */
  ghost predicate ResidentInOwner(s: State) {
    forall h :: h in s.helpers && s.helpers[h].Loaded() ==> s.lock == Some(Helper(h))
  }

  /** The final block of a helper with a resident model raises. */
  predicate GivesUpLoaded(s: State, step: Step) {
    step.Abort? && step.h in s.helpers && s.helpers[step.h].Loaded()
  }

  lemma StepKeepsResidentInOwner(s: State, step: Step)
    requires Safe(s) && ResidentInOwner(s) && Enabled(s, step)
    ensures ResidentInOwner(Apply(s, step)) <==> !GivesUpLoaded(s, step)
  {
    var t := Apply(s, step);
    if GivesUpLoaded(s, step) {
      assert step.h in t.helpers && t.helpers[step.h].Loaded() && t.lock.None?;
    } else {
      forall h | h in t.helpers && t.helpers[h].Loaded() ensures t.lock == Some(Helper(h)) {
        assert h in s.helpers && s.helpers[h].Holding();
      }
    }
  }

  ghost predicate AlwaysInOwner(steps: seq<Step>) {
    forall n :: 0 <= n <= |steps| ==> OwnedAt(steps, n)
  }

  ghost predicate OwnedAt(steps: seq<Step>, n: nat)
    requires n <= |steps|
  {
    Run(steps[..n]).Some? ==> ResidentInOwner(Run(steps[..n]).value)
  }

  predicate GivesUpAt(steps: seq<Step>, n: nat)
    requires n < |steps|
  {
    Run(steps[..n]).Some? && GivesUpLoaded(Run(steps[..n]).value, steps[n])
  }

  /** All along a run the model is resident only in the owner of the lifetime lock, so in at most
      one process, exactly when no helper with a resident model leaves its final block by an
      error. */
  lemma {:induction false} ResidentInOwnerExactly(steps: seq<Step>, s: State)
    requires Reaches(steps, s)
    ensures AlwaysInOwner(steps) <==> forall n :: 0 <= n < |steps| ==> !GivesUpAt(steps, n)
    decreases |steps|
  {
    hide Enabled, Apply, GivesUpLoaded, ResidentInOwner, Safe, RunFrom, Reaches;
    assert steps[..|steps|] == steps;
    if steps == [] {
      NothingResident(steps);
    } else {
      LastStep(steps, s);
      ReachedState(steps, s);
      var front, last := steps[..|steps| - 1], steps[|steps| - 1];
      var before := Run(front).value;
      RunIsSafe(front, before);
      ResidentInOwnerExactly(front, before);
      AllButLast(steps);
      assert GivesUpAt(steps, |front|) <==> GivesUpLoaded(before, last);
      if ResidentInOwner(before) {
        StepKeepsResidentInOwner(before, last);
      } else {
        assert !OwnedAt(front, |front|) by { assert front[..|front|] == front; }
      }
    }
  }

  lemma ReachedState(steps: seq<Step>, s: State)
    requires Reaches(steps, s)
    ensures Run(steps) == Some(s)
  {
  }

  lemma NothingResident(steps: seq<Step>)
    requires steps == []
    ensures AlwaysInOwner(steps)
  {
    assert Run(steps) == Some(INITIAL);
    forall n | 0 <= n <= |steps| ensures OwnedAt(steps, n) { assert steps[..n] == steps; }
  }

  lemma AllButLast(steps: seq<Step>)
    requires steps != []
    ensures var front := steps[..|steps| - 1];
            && (AlwaysInOwner(steps) <==> AlwaysInOwner(front) && OwnedAt(steps, |steps|))
            && ((forall n :: 0 <= n < |steps| ==> !GivesUpAt(steps, n))
                <==> (forall n :: 0 <= n < |front| ==> !GivesUpAt(front, n)) && !GivesUpAt(steps, |front|))
  {
    hide Run, GivesUpLoaded, ResidentInOwner;
    var front := steps[..|steps| - 1];
    forall n | 0 <= n <= |front| ensures OwnedAt(steps, n) <==> OwnedAt(front, n) { assert steps[..n] == front[..n]; }
    forall n | 0 <= n < |front| ensures GivesUpAt(steps, n) <==> GivesUpAt(front, n) {
      assert steps[..n] == front[..n];
    }
  }

  /** While no final block has raised, two processes with a resident model are one. */
  lemma {:induction false} AtMostOneResident(steps: seq<Step>, s: State, h: Pid, g: Pid)
    requires Reaches(steps, s) && forall n :: 0 <= n < |steps| ==> !GivesUpAt(steps, n)
    requires s.In(h, (p: Phase) => p.Loaded()) && s.In(g, (p: Phase) => p.Loaded())
    ensures s.lock == Some(Helper(h)) && h == g
  {
    hide RunFrom, GivesUpAt;
    ResidentInOwnerExactly(steps, s);
    assert steps[..|steps|] == steps && OwnedAt(steps, |steps|);
  }

  /** Whatever a helper unlinks on its way out is its own socket, if anything: it checks and
      unlinks before it gives the lock back, so no successor can have bound in between. */
  lemma {:induction false} UnlinksOnlyItsOwn(steps: seq<Step>, s: State, h: Pid)
    requires Reaches(steps, s) && Enabled(s, UnlinkOwn(h))
    ensures s.path.Some? ==> s.path.value == Socket(s.helpers[h].identity, h)
  {
    hide Reaches;
    RunIsSafe(steps, s);
    assert PathOwned(s, h);
  }

  /** What a starting helper clears away belongs to no helper that is still running its lifetime. */
  lemma {:induction false} ClearsOnlyStaleSockets(steps: seq<Step>, s: State, h: Pid)
    requires Reaches(steps, s) && Enabled(s, ClearPath(h)) && s.path.Some?
    ensures forall g :: g in s.helpers && g != h ==>
      !s.helpers[g].Holding() && (s.helpers[g].Loaded() ==> s.helpers[g].Aborted?)
  {
    hide Reaches;
    RunIsSafe(steps, s);
  }

  /** Binding never finds the path taken. */
  lemma {:induction false} BindFindsThePathFree(steps: seq<Step>, s: State, h: Pid, inode: Inode)
    requires Reaches(steps, s) && s.In(h, (p: Phase) => p.Cleared?)
    ensures Enabled(s, Bind(h, inode))
  {
    hide Reaches;
    RunIsSafe(steps, s);
    assert PathOwned(s, h);
  }

  /** The identity a helper records from the path is that of the socket it bound itself. */
  lemma {:induction false} RecordsItsOwn(steps: seq<Step>, s: State, h: Pid)
    requires Reaches(steps, s) && Enabled(s, Record(h))
    ensures Apply(s, Record(h)).helpers[h] == AtLoop(s.helpers[h].inode, false) && s.path.value.binder == h
  {
    hide Reaches;
    RunIsSafe(steps, s);
    assert PathOwned(s, h);
  }

  /** A helper accepts a request exactly while the socket at the path is its own. */
  lemma {:induction false} ServesExactlyItsOwnSocket(steps: seq<Step>, s: State, h: Pid)
    requires Reaches(steps, s) && s.In(h, (p: Phase) => p.AtLoop?)
    ensures Enabled(s, PassGuard(h)) <==> s.path == Some(Socket(s.helpers[h].identity, h))
  {
    hide Reaches;
    RunIsSafe(steps, s);
    assert PathOwned(s, h);
  }

  /** A helper whose socket was removed under it, or one that is past its path check. */
  predicate Outlived(s: State, h: Pid) {
    && h in s.helpers
    && match s.helpers[h]
       case AtLoop(_, _) => s.path.None?
       case Busy(_, _) => s.path.None?
       case Leaving(_, _) => s.path.None?
       case Matched(_, _) => s.path.None?
       case Closing(_) => true
       case Released => true
       case Aborted(_) => true
       case Exited => true
       case _ => false
  }

  lemma StepKeepsOutlived(s: State, h: Pid, step: Step)
    requires Safe(s) && Outlived(s, h) && Enabled(s, step)
    ensures Outlived(Apply(s, step), h) && step != PassGuard(h)
  {
  }

  /** Once a client has removed a live socket its owner finishes at most the request it is
      serving: whatever anyone does afterwards, it never passes its loop guard again and never
      binds again. */
  lemma {:induction false} OrphansOnlyLeave(steps: seq<Step>, s: State, h: Pid, more: seq<Step>, t: State)
    requires Reaches(steps, s) && Outlived(s, h) && RunFrom(s, more) == Some(t)
    ensures Outlived(t, h) && PassGuard(h) !in more && forall inode :: Bind(h, inode) !in more
    decreases |more|
  {
    hide Safe, Outlived, Enabled, Apply;
    RunIsSafe(steps, s);
    if more != [] {
      var front, last := more[..|more| - 1], more[|more| - 1];
      var before := RunFrom(s, front).value;
      OrphansOnlyLeave(steps, s, h, front, before);
      RunFromKeepsSafe(s, front, before);
      StepKeepsOutlived(before, h, last);
      OutlivedNeverBinds(before, h, last);
      assert more == front + [last];
    }
  }

  lemma OutlivedNeverBinds(s: State, h: Pid, step: Step)
    requires Outlived(s, h) && Enabled(s, step)
    ensures forall inode :: step != Bind(h, inode)
  {
  }

  /** The lock is given back by its owner's unlock, by an error in its final block, or by its
      death; the model is still resident then exactly when the error found it resident. */
  lemma {:induction false} UnlocksUnloaded(steps: seq<Step>, s: State, step: Step, h: Pid)
    requires Reaches(steps, s) && Enabled(s, step) && s.lock == Some(Helper(h)) && Apply(s, step).lock != s.lock
    ensures step == Unlock(h) || step == Crash(h) || step == Abort(h)
    ensures Apply(s, step).In(h, (p: Phase) => p.Loaded()) <==> GivesUpLoaded(s, step)
  {
    hide Reaches;
    RunIsSafe(steps, s);
  }

  /** The socket at the path, if any, was bound by another process. */
  predicate NotOwn(s: State, h: Pid) { s.path.Some? ==> s.path.value.binder != h }

  /** Where a helper that has met no error stands with the path: before it binds and after its path
      check nothing of its own is there, and it leaves with a recorded identity. */
  predicate Tidy(s: State, h: Pid) {
    if h !in s.helpers then NotOwn(s, h)
    else
      match s.helpers[h]
      case Bound(_) => true
      case AtLoop(_, _) => true
      case Busy(_, _) => true
      case Leaving(recorded, _) => recorded.Some?
      case Matched(_, _) => true
      case _ => NotOwn(s, h)
  }

  lemma StepKeepsTidy(s: State, h: Pid, step: Step)
    requires Safe(s) && Tidy(s, h) && Enabled(s, step)
    requires step != Fail(h) && step != Abort(h) && step != Crash(h)
    ensures Tidy(Apply(s, step), h)
  {
    assert PathOwned(s, h);
  }

  /** A helper that meets no error and is past its path check has left nothing behind: the path is
      free or holds a successor's socket, and stays so. */
  lemma {:induction false} LeavesNothingBehind(steps: seq<Step>, s: State, h: Pid)
    requires Reaches(steps, s) && Fail(h) !in steps && Abort(h) !in steps && Crash(h) !in steps
    ensures Tidy(s, h)
    ensures s.In(h, (p: Phase) => p.Closing? || p.Released? || p.Exited?) ==> NotOwn(s, h)
    decreases |steps|
  {
    hide Enabled, Apply, Safe, Reaches;
    if steps == [] {
      assert s == INITIAL by { NothingRun(steps, s); }
    } else {
      LastStep(steps, s);
      var front := steps[..|steps| - 1];
      var before := Run(front).value;
      assert steps == front + [steps[|front|]];
      LeavesNothingBehind(front, before, h);
      RunIsSafe(front, before);
      StepKeepsTidy(before, h, steps[|front|]);
    }
  }

  lemma NothingRun(steps: seq<Step>, s: State)
    requires Reaches(steps, s) && steps == []
    ensures s == INITIAL
  {
  }

  /** A model once loaded stays resident until its process releases it or is gone. */
  lemma StaysResident(s: State, step: Step, h: Pid)
    requires Enabled(s, step) && s.In(h, (p: Phase) => p.Loaded()) && !Apply(s, step).In(h, (p: Phase) => p.Loaded())
    ensures step == ReleaseModel(h) || step == Crash(h)
  {
  }

  // ---------------------------------------------------------------- an error in the final block

  function WarmUp(h: Pid, inode: Inode): seq<Step> {
    [Spawn(h), Acquire(h), ClearPath(h), Bind(h, inode), Record(h), PassGuard(h), Load(h)]
  }

  /** Whenever the lock is free a new helper can go all the way to a resident model. */
  lemma WarmsUp(steps: seq<Step>, s: State, h: Pid, inode: Inode)
    requires Reaches(steps, s) && s.lock.None? && h !in s.helpers
    ensures Reaches(steps + WarmUp(h, inode),
                    State(s.helpers[h := Busy(inode, true)], Some(Helper(h)), Some(Socket(inode, h))))
  {
    hide Reaches;
    var taken, t := steps, s;
    for i := 0 to 7
      invariant taken == steps + WarmUp(h, inode)[..i] && Reaches(taken, t)
      invariant i == 0 ==> t == s
      invariant i == 1 ==> t == s.At(h, Waiting)
      invariant i == 2 ==> t == s.At(h, Locked).(lock := Some(Helper(h)))
      invariant i == 3 ==> t == s.At(h, Cleared).(lock := Some(Helper(h)), path := None)
      invariant i == 4 ==> t == s.At(h, Bound(inode)).(lock := Some(Helper(h)), path := Some(Socket(inode, h)))
      invariant i == 5 ==> t == s.At(h, AtLoop(inode, false)).(lock := Some(Helper(h)), path := Some(Socket(inode, h)))
      invariant i == 6 ==> t == s.At(h, Busy(inode, false)).(lock := Some(Helper(h)), path := Some(Socket(inode, h)))
      invariant i == 7 ==> t == s.At(h, Busy(inode, true)).(lock := Some(Helper(h)), path := Some(Socket(inode, h)))
    {
      OneMore(taken, t, WarmUp(h, inode)[i]);
      taken, t := taken + [WarmUp(h, inode)[i]], Apply(t, WarmUp(h, inode)[i]);
    }
    assert WarmUp(h, inode)[..7] == WarmUp(h, inode);
  }

  /** One helper serves with a resident model, fails to check or unlink its socket and so gives
      the lock back without releasing the model; a second one loads before the first is gone. */
  lemma TwoResidents(steps: seq<Step>)
    requires steps == WarmUp(0, 7) + [LeaveLoop(0)] + [Abort(0)] + WarmUp(1, 8)
    ensures Run(steps).Some? && Run(steps).value.In(0, (p: Phase) => p.Loaded())
    ensures Run(steps).value.In(1, (p: Phase) => p.Loaded())
  {
    hide RunFrom;
    assert Reaches([], INITIAL) by { EmptyRun(); }
    WarmsUp([], INITIAL, 0, 7);
    assert [] + WarmUp(0, 7) == WarmUp(0, 7);
    var s := State(map[0 := Busy(7, true)], Some(Helper(0)), Some(Socket(7, 0)));
    OneMore(WarmUp(0, 7), s, LeaveLoop(0));
    var leaving := Apply(s, LeaveLoop(0));
    OneMore(WarmUp(0, 7) + [LeaveLoop(0)], leaving, Abort(0));
    WarmsUp(WarmUp(0, 7) + [LeaveLoop(0)] + [Abort(0)], Apply(leaving, Abort(0)), 1, 8);
  }

  lemma EmptyRun()
    ensures Reaches([], INITIAL)
  {
  }
}
