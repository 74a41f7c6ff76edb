/**
  When a waiting application can become the owner: exactly unless the present owner is stuck. An owner is stuck
  once its task has ended on an abort, or once it has called register again and polls for itself.
 */
module OwnershipProgress {
  import opened Ownership
  import LogFile

  predicate StuckAt(p: Place) { p in {Exited, WantLock, Testing, Releasing, Delaying} }

  predicate Stuck(s: State) {
    s.shared.owner != UNDEFINED && s.shared.owner in s.apps && StuckAt(s.apps[s.shared.owner].at)
  }

  predicate Waiting(s: State, w: AppId) { w in s.apps && !s.apps[w].owning && s.apps[w].at != Exited }

  // ----------------------------------------------------------------- stuck for good

  lemma StuckStep(s: State, a: AppId, act: Action)
    requires Inv(s) && Stuck(s)
    ensures Stuck(Step(s, a, act)) && Step(s, a, act).shared.owner == s.shared.owner
  {
    if a in s.apps {
      var o := s.shared.owner;
      assert AppOk(a, s.apps[a], s.shared) && AppOk(o, s.apps[o], s.shared);
      StuckAct(a, s.apps[a], s.shared, act);
    }
  }

  lemma StuckAct(a: AppId, x: App, sh: Shared, act: Action)
    requires AppOk(a, x, sh) && sh.owner != UNDEFINED && (a == sh.owner ==> StuckAt(x.at))
    ensures var (y, th) := Act(a, x, sh, act); th.owner == sh.owner && (a == sh.owner ==> StuckAt(y.at))
  {
    hide LogFile.Stored;
  }

  lemma {:induction false} StuckForever(s: State, sched: Schedule)
    requires Inv(s) && Stuck(s)
    ensures Stuck(Run(s, sched)) && Run(s, sched).shared.owner == s.shared.owner
    decreases |sched|
  {
    if sched != [] {
      var (a, act) := sched[0];
      StuckStep(s, a, act);
      StepKeeps(s, a, act);
      StuckForever(Step(s, a, act), sched[1..]);
    }
  }

  // ----------------------------------------------------------------- otherwise within reach

  /** The step that leads an application on: out of a call, out of the tests, or forward. */
  function Onward(x: App): Action {
    match x.at
    case Idle => Register(x.name)
    case Owning => Execute
    case Entering => if x.owning then Fail else Advance
    case _ => Advance
  }

  /** Whose turn brings `w` nearer: the holder of the lock, else the owner, else `w` itself. */
  function Mover(s: State, w: AppId): AppId {
    if s.shared.mutex != 0 then s.shared.mutex
    else if s.shared.owner != UNDEFINED then s.shared.owner
    else w
  }

  /** Steps an owner takes until ownership is free. */
  function OwnerLeft(p: Place): nat {
    match p
    case ClaimUnlock => 16
    case TestState => 15
    case EndStartup => 14
    case SetActive => 13
    case EarlyInit => 12
    case SetName => 11
    case SetCallback => 10
    case BeginSetup | Entering => 9
    case Owning => 8
    case Checking => 7
    case EndSetup => 6
    case RunTests => 5
    case ExecLock => 4
    case ClearCallback => 3
    case CloseLog => 2
    case _ => 1
  }

  /** Steps another holder of the lock takes until it lets go; if ownership is free it may take it first. */
  function HolderRank(p: Place, free: bool): nat {
    match p
    case Testing => if free then 102 else 2
    case Claiming => 101
    case _ => 1
  }

  /** Steps `w` takes by itself. */
  function WaiterRank(p: Place, free: bool): nat {
    match p
    case ExecUnlock => 9
    case Checking => 8
    case Idle => 7
    case Entering => 6
    case Testing => if free then 2 else 6
    case Releasing => 5
    case Delaying => 4
    case WantLock => 3
    case _ => 1
  }

  function OwnerRank(s: State): nat {
    var o := s.shared.owner;
    if o != UNDEFINED && o in s.apps then 20 + OwnerLeft(s.apps[o].at) else 0
  }

  function LockRank(s: State, w: AppId): nat {
    var h := s.shared.mutex;
    if h != 0 && h in s.apps && h != w && h != s.shared.owner
    then HolderRank(s.apps[h].at, s.shared.owner == UNDEFINED) else 0
  }

  function Rank(s: State, w: AppId): nat
    requires w in s.apps
  {
    OwnerRank(s) + LockRank(s, w) + WaiterRank(s.apps[w].at, s.shared.owner == UNDEFINED)
  }

  function Nearer(s: State, w: AppId): State
    requires Inv(s) && Waiting(s, w)
  {
    var a := Mover(s, w);
    Step(s, a, Onward(s.apps[a]))
  }

  ghost predicate Progressed(s: State, t: State, w: AppId)
    requires w in s.apps
  {
    w in t.apps && t.apps[w].name == s.apps[w].name &&
    ((t.shared.owner == w && t.apps[w].at == ClaimUnlock) || (Waiting(t, w) && !Stuck(t) && Rank(t, w) < Rank(s, w)))
  }

  /** One step of the mover. */
  lemma Progress(s: State, w: AppId)
    requires Inv(s) && Waiting(s, w) && !Stuck(s)
    ensures Progressed(s, Nearer(s, w), w)
  {
    var a := Mover(s, w);
    assert AppOk(w, s.apps[w], s.shared) && AppOk(a, s.apps[a], s.shared);
    if s.shared.owner != UNDEFINED { assert AppOk(s.shared.owner, s.apps[s.shared.owner], s.shared); }
    if a == w { WaiterMoves(s, w); } else if a == s.shared.owner { OwnerMoves(s, w); } else { HolderMoves(s, w); }
  }

  lemma WaiterMoves(s: State, w: AppId)
    requires Inv(s) && Waiting(s, w) && !Stuck(s) && Mover(s, w) == w && AppOk(w, s.apps[w], s.shared)
    ensures Progressed(s, Nearer(s, w), w)
  {
    hide LogFile.Stored;
    hide Phase;
    hide GlobalOk;
  }

  lemma OwnerStep(a: AppId, x: App, sh: Shared)
    requires AppOk(a, x, sh) && sh.owner == a && !StuckAt(x.at) && (sh.mutex == 0 || sh.mutex == a)
    ensures var (y, th) := Act(a, x, sh, Onward(x));
            && (th.mutex == 0 || th.mutex == a)
            && y.name == x.name
            && if th.owner == a then !StuckAt(y.at) && OwnerLeft(y.at) < OwnerLeft(x.at)
               else th.owner == UNDEFINED && y.at == ExecUnlock && th.mutex == a
  {
    hide LogFile.Stored;
  }

  lemma OwnerMoves(s: State, w: AppId)
    requires Inv(s) && Waiting(s, w) && !Stuck(s) && AppOk(w, s.apps[w], s.shared)
    requires Mover(s, w) == s.shared.owner && AppOk(s.shared.owner, s.apps[s.shared.owner], s.shared)
    ensures Progressed(s, Nearer(s, w), w)
  {
    var o: AppId := s.shared.owner;
    OwnerStep(o, s.apps[o], s.shared);
    hide Inv;
    hide AppOk;
    hide Act;
  }

  lemma HolderMoves(s: State, w: AppId)
    requires Inv(s) && Waiting(s, w) && !Stuck(s) && AppOk(w, s.apps[w], s.shared)
    requires var h := Mover(s, w); h == s.shared.mutex && h != w && h != s.shared.owner && AppOk(h, s.apps[h], s.shared)
    ensures Progressed(s, Nearer(s, w), w)
  {
    hide LogFile.Stored;
    hide Phase;
    hide GlobalOk;
  }

  /** A schedule that makes `w` the owner. */
  lemma {:induction false} Reachable(s: State, w: AppId) returns (sched: Schedule)
    requires Inv(s) && Waiting(s, w) && !Stuck(s)
    ensures var t := Run(s, sched); Inv(t) && t.shared.owner == w && t.apps[w] == App(ClaimUnlock, s.apps[w].name, true)
    decreases Rank(s, w)
  {
    hide Rank;
    var a := Mover(s, w);
    var t := Nearer(s, w);
    Progress(s, w);
    StepKeeps(s, a, Onward(s.apps[a]));
    var rest: Schedule := [];
    if t.shared.owner != w { rest := Reachable(t, w); }
    sched := [(a, Onward(s.apps[a]))] + rest;
    assert sched[1..] == rest;
  }

  /** From every reachable state, an application that is neither the owner nor ended can still become the owner
      if and only if the present owner, if any, is not stuck. */
  lemma CanStillOwn(ids: set<AppId>, past: Schedule, w: AppId)
    requires Waiting(Run(Initial(ids), past), w)
    ensures var s := Run(Initial(ids), past);
            (exists sched: Schedule :: Run(s, sched).shared.owner == w) <==> !Stuck(s)
  {
    var s := Run(Initial(ids), past);
    InitialInv(ids);
    RunKeeps(Initial(ids), past);
    if Stuck(s) {
      assert AppOk(w, s.apps[w], s.shared);
      forall sched: Schedule ensures Run(s, sched).shared.owner != w { StuckForever(s, sched); }
    } else {
      var sched := Reachable(s, w);
    }
  }

  // ----------------------------------------------------------------- getting stuck

  /** A new owner goes through the rest of its registration unhindered. */
  lemma {:induction false} Settles(s: State, a: AppId) returns (sched: Schedule)
    requires Inv(s) && s.shared.owner == a && OwnerLeft(s.apps[a].at) > 8 && !StuckAt(s.apps[a].at)
    requires s.apps[a].at != Entering
    ensures var t := Run(s, sched); Inv(t) && t.shared.owner == a && t.apps[a] == App(Owning, s.apps[a].name, true)
    decreases OwnerLeft(s.apps[a].at)
  {
    var t := Step(s, a, Advance);
    SettleStep(s, a);
    StepKeeps(s, a, Advance);
    hide Inv;
    hide Step;
    var rest: Schedule := [];
    if t.apps[a].at != Owning { rest := Settles(t, a); }
    sched := [(a, Advance)] + rest;
    assert sched[1..] == rest;
  }

  lemma SettleStep(s: State, a: AppId)
    requires Inv(s) && s.shared.owner == a && OwnerLeft(s.apps[a].at) > 8 && s.apps[a].at != Entering
    ensures var t := Step(s, a, Advance);
            && t.shared.owner == a && OwnerLeft(t.apps[a].at) < OwnerLeft(s.apps[a].at)
            && t.apps[a].name == s.apps[a].name && t.apps[a].owning
            && (t.apps[a].at == Owning || OwnerLeft(t.apps[a].at) > 8)
            && t.apps[a].at != Entering && !StuckAt(t.apps[a].at)
  {
    assert AppOk(a, s.apps[a], s.shared);
    SettleAct(a, s.apps[a], s.shared);
    hide Inv;
    hide Act;
  }

  lemma SettleAct(a: AppId, x: App, sh: Shared)
    requires AppOk(a, x, sh) && sh.owner == a && OwnerLeft(x.at) > 8 && x.at != Entering
    ensures var (y, th) := Act(a, x, sh, Advance);
            && th.owner == a && OwnerLeft(y.at) < OwnerLeft(x.at) && (y.at == Owning || OwnerLeft(y.at) > 8)
            && y.at != Entering && !StuckAt(y.at) && y.name == x.name && y.owning
  {
    hide LogFile.Stored;
  }

  /** An owner that registers a second time is stuck in the loop that waits for ownership to be free. */
  lemma OwnerSticks(s: State, a: AppId, name: string) returns (sched: Schedule)
    requires Inv(s) && s.shared.owner == a && s.apps[a].at == Owning
    ensures sched == [(a, Register(name)), (a, Advance)]
    ensures Polls(Run(s, sched), a)
  {
    sched := [(a, Register(name)), (a, Advance)];
    SecondRegistration(a, s.apps[a], s.shared, name);
    RunTwo(s, a, Register(name), Advance);
    hide Inv;
    hide Act;
    hide Run;
  }

  /** An owner that wants the lock to become the owner. */
  predicate Polls(s: State, a: AppId) { s.shared.owner == a && a in s.apps && s.apps[a].at == WantLock }

  lemma SecondRegistration(a: AppId, x: App, sh: Shared, name: string)
    requires sh.owner == a && x.at == Owning
    ensures var (y, th) := Act(a, x, sh, Register(name));
            var (z, uh) := Act(a, y, th, Advance);
            uh.owner == a && z.at == WantLock
  {}

  /** An application that can become the owner can block the library for good, by registering twice. */
  lemma Blocks(s: State, w: AppId) returns (sched: Schedule)
    requires Inv(s) && Waiting(s, w) && !Stuck(s)
    ensures Polls(Run(s, sched), w) && Inv(Run(s, sched))
  {
    var first := Reachable(s, w);
    var t := Run(s, first);
    var second := Settles(t, w);
    var third := OwnerSticks(Run(t, second), w, "");
    sched := first + second + third;
    RunConcat(s, first, second);
    RunConcat(s, first + second, third);
    RunKeeps(s, sched);
  }

  /**
    From every reachable state with an owner that is not stuck, each application that waits can come to own the
    library and wait for it at once, and then it stays the owner whatever anybody does.
   */
  lemma CanBlock(ids: set<AppId>, past: Schedule, w: AppId)
    requires Waiting(Run(Initial(ids), past), w) && !Stuck(Run(Initial(ids), past))
    ensures exists sched: Schedule ::
              var t := Run(Run(Initial(ids), past), sched);
              Polls(t, w) && forall more: Schedule :: Run(t, more).shared.owner == w
  {
    InitialInv(ids);
    RunKeeps(Initial(ids), past);
    var s := Run(Initial(ids), past);
    hide Run;
    hide Inv;
    hide Waiting;
    var sched := Blocks(s, w);
    var t := Run(s, sched);
    forall more: Schedule ensures Run(t, more).shared.owner == w { StuckForever(t, more); }
  }

  /** An owner whose task ends on an abort, of its own code or of its tests, stays the owner as well. */
  lemma AbortBlocks(ids: set<AppId>, past: Schedule, more: Schedule)
    requires var s := Run(Initial(ids), past);
             s.shared.owner != UNDEFINED && s.shared.owner in s.apps && MayUse(s.apps[s.shared.owner].at)
    ensures var s := Run(Initial(ids), past);
            Run(Step(s, s.shared.owner, Abort), more).shared.owner == s.shared.owner
  {
    var s := Run(Initial(ids), past);
    InitialInv(ids);
    RunKeeps(Initial(ids), past);
    StepKeeps(s, s.shared.owner, Abort);
    AbortSticks(s, s.shared.owner);
    hide Run;
    hide Inv;
    hide Step;
    StuckForever(Step(s, s.shared.owner, Abort), more);
  }

  lemma AbortSticks(s: State, a: AppId)
    requires s.shared.owner == a && a in s.apps && MayUse(s.apps[a].at)
    ensures Stuck(Step(s, a, Abort)) && Step(s, a, Abort).shared.owner == a
  {}

  /** So a second application may never get its turn. */
  lemma SomeoneBlocks()
    ensures exists sched: Schedule ::
              Polls(Run(Initial({1, 2}), sched), 1)
              && forall more: Schedule :: Run(Run(Initial({1, 2}), sched), more).shared.owner == 1
  {
    var s := Initial({1, 2});
    InitialInv({1, 2});
    assert Waiting(s, 1) && !Stuck(s);
    hide Run;
    hide Inv;
    hide Waiting;
    var sched := Blocks(s, 1);
    var t := Run(s, sched);
    forall more: Schedule ensures Run(t, more).shared.owner == 1 { StuckForever(t, more); }
  }

  // ----------------------------------------------------------------- the name that is left

  /** An owner alone with the lock gets as far as giving ownership up. */
  lemma {:induction false} Releases(s: State, a: AppId) returns (sched: Schedule)
    requires Inv(s) && s.shared.owner == a && !StuckAt(s.apps[a].at) && (s.shared.mutex == 0 || s.shared.mutex == a)
    requires s.apps[a].at != ExecUnlock
    ensures var t := Run(s, sched);
            Inv(t) && t.shared.owner == a && t.apps[a].at == ClearOwner && t.apps[a].name == s.apps[a].name
    decreases OwnerLeft(s.apps[a].at)
  {
    sched := [];
    if s.apps[a].at != ClearOwner {
      var act := Onward(s.apps[a]);
      var t := Step(s, a, act);
      ReleaseStep(s, a);
      StepKeeps(s, a, act);
      hide Inv;
      hide Step;
      var rest := Releases(t, a);
      sched := [(a, act)] + rest;
      assert sched[1..] == rest;
    }
  }

  lemma ReleaseStep(s: State, a: AppId)
    requires Inv(s) && s.shared.owner == a && !StuckAt(s.apps[a].at) && (s.shared.mutex == 0 || s.shared.mutex == a)
    requires s.apps[a].at !in {ClearOwner, ExecUnlock}
    ensures var t := Step(s, a, Onward(s.apps[a]));
            && t.shared.owner == a && (t.shared.mutex == 0 || t.shared.mutex == a)
            && !StuckAt(t.apps[a].at) && t.apps[a].at != ExecUnlock && t.apps[a].name == s.apps[a].name
            && OwnerLeft(t.apps[a].at) < OwnerLeft(s.apps[a].at)
  {
    hide Act;
    hide AppOk;
    hide GlobalOk;
    assert AppOk(a, s.apps[a], s.shared);
    ReleaseAct(a, s.apps[a], s.shared);
  }

  lemma ReleaseAct(a: AppId, x: App, sh: Shared)
    requires AppOk(a, x, sh) && sh.owner == a && !StuckAt(x.at) && (sh.mutex == 0 || sh.mutex == a)
    requires x.at != ClearOwner
    ensures var (y, th) := Act(a, x, sh, Onward(x));
            && th.owner == a && (th.mutex == 0 || th.mutex == a) && y.at != ExecUnlock
            && !StuckAt(y.at) && y.name == x.name && OwnerLeft(y.at) < OwnerLeft(x.at)
  {
    OwnerStep(a, x, sh);
    NotReleased(a, x, sh);
    hide Act;
    hide AppOk;
  }

  lemma NotReleased(a: AppId, x: App, sh: Shared)
    requires AppOk(a, x, sh) && sh.owner == a && x.at != ClearOwner
    ensures var (y, th) := Act(a, x, sh, Onward(x)); th.owner == a && y.at != ExecUnlock
  {
    hide LogFile.Stored;
  }

  /** Whatever the name, an application can register under it, run its tests, and leave the name behind. */
  lemma NameSurvives(name: string)
    ensures exists sched: Schedule ::
              var sh := Run(Initial({1}), sched).shared;
              sh.owner == UNDEFINED && sh.testName == LogFile.Stored(name, API_LEN)
  {
    var start: Schedule := [(1, Register(name)), (1, Fail)];
    var s := Named(name);
    var more := LeavesName(s, 1);
    RunConcat(Initial({1}), start, more);
    hide Run;
    assert Run(Initial({1}), start + more) == Run(s, more);
  }

  lemma LeavesName(s: State, a: AppId) returns (sched: Schedule)
    requires Inv(s) && Waiting(s, a) && !Stuck(s)
    ensures var sh := Run(s, sched).shared;
            sh.owner == UNDEFINED && sh.testName == LogFile.Stored(s.apps[a].name, API_LEN)
  {
    var first := Reachable(s, a);
    var t := Run(s, first);
    assert AppOk(a, t.apps[a], t.shared);
    var second := Releases(t, a);
    var u := Run(t, second);
    GivenUp(u, a);
    hide Inv;
    hide Step;
    hide AppOk;
    sched := first + second + [(a, Advance)];
    RunConcat(s, first, second);
    RunConcat(s, first + second, [(a, Advance)]);
    OneTurn(u, a, Advance);
    hide Run;
  }

  /** An application that has tried once to register under a name. */
  lemma Named(name: string) returns (s: State)
    ensures s == Run(Initial({1}), [(1, Register(name)), (1, Fail)])
    ensures Inv(s) && Waiting(s, 1) && !Stuck(s) && s.apps[1].name == name
  {
    InitialInv({1});
    var sched: Schedule := [(1, Register(name)), (1, Fail)];
    RunKeeps(Initial({1}), sched);
    RunTwo(Initial({1}), 1, Register(name), Fail);
    hide Run;
    hide Inv;
    s := Run(Initial({1}), sched);
  }

  lemma OneTurn(s: State, a: AppId, act: Action)
    ensures Run(s, [(a, act)]) == Step(s, a, act)
  {
    hide Step;
    var sched: Schedule := [(a, act)];
    assert sched[1..] == [];
    assert Run(Step(s, a, act), []) == Step(s, a, act);
  }

  lemma GivenUp(s: State, a: AppId)
    requires Inv(s) && a in s.apps && s.apps[a].at == ClearOwner
    ensures var sh := Step(s, a, Advance).shared;
            sh.owner == UNDEFINED && sh.testName == LogFile.Stored(s.apps[a].name, API_LEN)
  {
    assert AppOk(a, s.apps[a], s.shared);
    hide Inv;
    hide LogFile.Stored;
  }
}
