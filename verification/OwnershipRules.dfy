/**
  What the ownership protocol guarantees in every run of any number of applications: one owner at a time,
  strictly alternating test segments, a clean state between owners but for the test's name, and a lock that is
  always given up.
 */
module OwnershipRules {
  import opened Ownership
  import LogFile

  // ----------------------------------------------------------------- safety over all runs

  /** One application at most is between taking ownership and giving it up, and it is the recorded owner. */
  lemma MutualExclusion(ids: set<AppId>, sched: Schedule)
    ensures var r := Run(Initial(ids), sched);
            && (forall a :: a in r.apps ==> (r.apps[a].owning <==> r.shared.owner == a))
            && (forall a :: a in r.apps && MustOwn(r.apps[a].at) ==> r.shared.owner == a)
            && (forall a, b :: a in r.apps && b in r.apps && r.apps[a].owning && r.apps[b].owning ==> a == b)
            && (forall a, b :: a in r.apps && b in r.apps && Holding(r.apps[a].at) && Holding(r.apps[b].at) ==> a == b)
  {
    InitialInv(ids);
    RunKeeps(Initial(ids), sched);
  }

  /** Nobody but the owner changes anything shared, other than the lock and an ownership that was free. */
  lemma OnlyOwnerChanges(s: State, a: AppId, act: Action)
    requires Inv(s) && s.shared.owner != a
    ensures var t := Step(s, a, act).shared;
            if t.owner == s.shared.owner then t == s.shared.(mutex := t.mutex)
            else s.shared.owner == UNDEFINED && t == s.shared.(owner := a)
  {
    if a in s.apps {
      var x := s.apps[a];
      assert AppOk(a, x, s.shared);
      Stranger(a, x, s.shared, act);
    }
  }

  lemma Stranger(a: AppId, x: App, sh: Shared, act: Action)
    requires AppOk(a, x, sh) && sh.owner != a
    ensures var t := Act(a, x, sh, act).1;
            if t.owner == sh.owner then t == sh.(mutex := t.mutex) else sh.owner == UNDEFINED && t == sh.(owner := a)
  {
    hide LogFile.Stored;
  }

  /** An owner stays the owner until it gives ownership up itself, at the end of its own execute. */
  lemma {:induction false} OwnerUntilRelease(s: State, sched: Schedule, a: AppId)
    requires Inv(s) && s.shared.owner == a
    ensures Run(s, sched).shared.owner == a || exists k :: ReleasesAt(s, sched, a, k)
    decreases |sched|
  {
    assert a in s.apps;
    hide Inv;
    hide Step;
    if sched != [] {
      var (b, act) := sched[0];
      var t := Step(s, b, act);
      StepKeeps(s, b, act);
      if t.shared.owner == a {
        OwnerUntilRelease(t, sched[1..], a);
        if Run(s, sched).shared.owner != a {
          var k :| ReleasesAt(t, sched[1..], a, k);
          RunPrefix(s, sched, k);
          assert ReleasesAt(s, sched, a, k + 1);
        }
      } else {
        GivesUp(s, b, act, a);
        assert Run(s, sched[..0]) == s;
        assert ReleasesAt(s, sched, a, 0);
      }
    }
  }

  /** The `k`th turn is `a`'s own clearing of the owner, in its execute. */
  predicate ReleasesAt(s: State, sched: Schedule, a: AppId, k: int) {
    && 0 <= k < |sched| && a in s.apps
    && sched[k] == (a, Advance) && Run(s, sched[..k]).apps[a].at == ClearOwner
  }

  lemma GivesUp(s: State, b: AppId, act: Action, a: AppId)
    requires Inv(s) && s.shared.owner == a && Step(s, b, act).shared.owner != a
    ensures b == a && act == Advance && s.apps[a].at == ClearOwner
  {
    if a != b { OnlyOwnerChanges(s, b, act); }
    hide LogFile.Stored;
    assert AppOk(a, s.apps[a], s.shared);
  }

  /** Begins and ends alternate in every run; the startup segment is the first one, and it is closed exactly
      when the library is about to be active, never again. */
  lemma SegmentDiscipline(ids: set<AppId>, sched: Schedule)
    ensures var sh := Run(Initial(ids), sched).shared;
            && Alternates(sh.trace)
            && (forall i :: 0 <= i < |sh.trace| && sh.trace[i] == BeginTest(STARTUP) ==> i == 0)
            && (sh.libState == Active ==> |sh.trace| >= 2 && sh.trace[1] == EndTest)
            && sh.libState != Startup && (sh.libState == Init ==> sh.testName == "")
  {
    InitialInv(ids);
    RunKeeps(Initial(ids), sched);
    var sh := Run(Initial(ids), sched).shared;
    forall i | 0 <= i < |sh.trace| && sh.trace[i] == BeginTest(STARTUP) ensures i == 0 {
      if i > 0 {
        var name :| sh.trace[i].name == SetupName(name);
        SetupIsNotStartup(name);
      }
    }
  }

  /** While an owner may use the library, the current test is its own, and so is the segment that is open. */
  lemma OwnerLabelled(ids: set<AppId>, sched: Schedule, a: AppId)
    ensures var r := Run(Initial(ids), sched);
            a in r.apps && r.shared.owner == a ==>
              && Labelled(r.apps[a], r.shared)
              && (r.apps[a].at == Owning ==> Open(r.shared.trace))
  {
    InitialInv(ids);
    RunKeeps(Initial(ids), sched);
    var r := Run(Initial(ids), sched);
    assert a in r.apps ==> AppOk(a, r.apps[a], r.shared);
    hide Run;
    hide Labelled;
    hide Inv;
    hide GlobalOk;
  }

  lemma SetupIsNotStartup(name: string)
    ensures SetupName(name) != STARTUP
  {
    var s := SetupName(name);
    if name == "" {
      assert s[0] == ' ';
    } else {
      assert |s| > |STARTUP|;
    }
  }

  /** Events are only ever added, and an active library stays active. */
  lemma {:induction false} NeverUndone(s: State, sched: Schedule)
    ensures var t := Run(s, sched).shared;
            s.shared.trace <= t.trace && (s.shared.libState == Active ==> t.libState == Active)
    decreases |sched|
  {
    if sched != [] { NeverUndone(Step(s, sched[0].0, sched[0].1), sched[1..]); }
  }

  /** When nobody owns the library, no callback is set, no log is open and no name is left of one, however the
      opening of a log went; and every segment is closed but the startup one of an inactive library. */
  lemma CleanHandover(ids: set<AppId>, sched: Schedule)
    ensures var sh := Run(Initial(ids), sched).shared;
            sh.owner == UNDEFINED ==>
              && sh.callback == SysLog && sh.log == Log(0, "", "")
              && (Open(sh.trace) <==> sh.libState == Init)
  {
    InitialInv(ids);
    RunKeeps(Initial(ids), sched);
  }

  /** Giving ownership up leaves the test's name behind: it is empty afterwards only if it was empty all along. */
  lemma NameIsLeft(ids: set<AppId>, sched: Schedule, a: AppId)
    requires a in ids && Run(Initial(ids), sched).apps[a].at == ClearOwner
    ensures var s := Run(Initial(ids), sched);
            var t := Step(s, a, Advance);
            && t.shared.owner == UNDEFINED && t.shared.testName == LogFile.Stored(s.apps[a].name, API_LEN)
            && (t.shared.testName == "" <==> s.apps[a].name == "")
  {
    InitialInv(ids);
    RunKeeps(Initial(ids), sched);
    var s := Run(Initial(ids), sched);
    hide Run;
    assert AppOk(a, s.apps[a], s.shared);
    hide Inv;
    hide GlobalOk;
  }

  // ----------------------------------------------------------------- a non-owner's execute

  /** A schedule without one application's turns. */
  function Without(sched: Schedule, a: AppId): Schedule {
    if sched == [] then []
    else if sched[0].0 == a then Without(sched[1..], a)
    else [sched[0]] + Without(sched[1..], a)
  }

  predicate OnlyExecutes(sched: Schedule, a: AppId) {
    forall i :: 0 <= i < |sched| && sched[i].0 == a ==> sched[i].1 in {Execute, Advance, Fail}
  }

  predicate SameBut(s: State, t: State, a: AppId) {
    && s.shared == t.shared && s.apps.Keys == t.apps.Keys
    && forall b :: b in s.apps && b != a ==> s.apps[b] == t.apps[b]
  }

  /** An application that calls execute without owning the library, as often as it likes, leaves everything
      shared and every other application as if it had never been there. */
  lemma {:induction false} StrangerExecutes(s: State, t: State, sched: Schedule, a: AppId)
    requires Inv(s) && Inv(t) && SameBut(s, t, a) && a in s.apps
    requires s.apps[a].at in {Idle, Checking} && s.shared.owner != a && OnlyExecutes(sched, a)
    ensures SameBut(Run(s, sched), Run(t, Without(sched, a)), a)
    ensures Run(s, sched).apps[a].at in {Idle, Checking} && !Run(s, sched).apps[a].owning
    decreases |sched|
  {
    assert AppOk(a, s.apps[a], s.shared);
    hide Inv;
    hide Step;
    hide AppOk;
    if sched != [] {
      var (b, act) := sched[0];
      StepKeeps(s, b, act);
      FirstTurn(t, sched, a);
      hide OnlyExecutes;
      hide Without;
      if b == a {
        ExecuteRefused(s, a, act);
        StrangerExecutes(Step(s, b, act), t, sched[1..], a);
      } else {
        StepKeeps(t, b, act);
        OnlyOneMoves(s, t, a, b, act);
        StrangerExecutes(Step(s, b, act), Step(t, b, act), sched[1..], a);
      }
    }
  }

  /** The schedule without one application's turns, turn by turn. */
  lemma FirstTurn(t: State, sched: Schedule, a: AppId)
    requires sched != [] && OnlyExecutes(sched, a)
    ensures OnlyExecutes(sched[1..], a) && (sched[0].0 == a ==> sched[0].1 in {Execute, Advance, Fail})
    ensures Run(t, Without(sched, a))
         == Run(if sched[0].0 == a then t else Step(t, sched[0].0, sched[0].1), Without(sched[1..], a))
  {
    hide Step;
    assert forall i :: 0 <= i < |sched| - 1 ==> sched[1..][i] == sched[i + 1];
    var rest := Without(sched[1..], a);
    assert ([sched[0]] + rest)[1..] == rest;
  }

  lemma ExecuteRefused(s: State, a: AppId, act: Action)
    requires Inv(s) && a in s.apps && s.apps[a].at in {Idle, Checking} && s.shared.owner != a
    requires act in {Execute, Advance, Fail}
    ensures var r := Step(s, a, act);
            SameBut(s, r, a) && SameBut(r, s, a) && r.apps[a].at in {Idle, Checking}
    ensures s.apps[a].at == Checking && act != Execute ==> Step(s, a, act).apps[a].at == Idle
  {
    assert AppOk(a, s.apps[a], s.shared);
  }

  lemma OnlyOneMoves(s: State, t: State, a: AppId, b: AppId, act: Action)
    requires Inv(s) && SameBut(s, t, a) && a != b && s.shared.owner != a && a in s.apps
    ensures SameBut(Step(s, b, act), Step(t, b, act), a)
    ensures Step(s, b, act).shared.owner != a && Step(s, b, act).apps[a] == s.apps[a]
  {
    if b in s.apps {
      assert s.apps[b] == t.apps[b];
      hide LogFile.Stored;
      OwnerIsMover(b, s.apps[b], s.shared, act);
    }
  }

  lemma OwnerIsMover(b: AppId, x: App, sh: Shared, act: Action)
    ensures Act(b, x, sh, act).1.owner in {sh.owner, b, UNDEFINED}
  {}

  // ----------------------------------------------------------------- the lock

  /** How many more of its own steps an application holds the lock for, at most. */
  function HoldLeft(p: Place): nat {
    match p
    case ClearCallback => 4
    case Testing | CloseLog => 3
    case Claiming | ClearOwner => 2
    case Releasing | ClaimUnlock | ExecUnlock => 1
    case _ => 0
  }

  function Turns(sched: Schedule, a: AppId): nat {
    if sched == [] then 0 else (if sched[0] == (a, Advance) then 1 else 0) + Turns(sched[1..], a)
  }

  lemma HolderAdvances(a: AppId, x: App, sh: Shared, act: Action)
    requires AppOk(a, x, sh) && sh.mutex == a
    ensures var (y, th) := Act(a, x, sh, act);
            if act == Advance then (th.mutex == 0 || (th.mutex == a && HoldLeft(y.at) < HoldLeft(x.at)))
            else y == x && th == sh
  {}

  /** A holder of the lock is never blocked: whatever the others do meanwhile, four of its own turns at most
      give the lock up. */
  lemma {:induction false} LockIsReleased(s: State, sched: Schedule, a: AppId)
    requires Inv(s) && s.shared.mutex == a && Turns(sched, a) >= HoldLeft(s.apps[a].at)
    ensures exists k :: 0 <= k <= |sched| && Run(s, sched[..k]).shared.mutex == 0
    decreases |sched|
  {
    assert AppOk(a, s.apps[a], s.shared);
    hide Inv;
    hide Step;
    assert HoldLeft(s.apps[a].at) > 0;
    var (b, act) := sched[0];
    var t := Step(s, b, act);
    StepKeeps(s, b, act);
    if t.shared.mutex == 0 {
      RunPrefix(s, sched, 0);
    } else {
      HolderStep(s, a, b, act);
      LockIsReleased(t, sched[1..], a);
      var k :| 0 <= k <= |sched| - 1 && Run(t, sched[1..][..k]).shared.mutex == 0;
      RunPrefix(s, sched, k);
    }
  }

  /** A step while `a` holds the lock: its own turn brings it nearer to giving up, and other steps do not matter. */
  lemma HolderStep(s: State, a: AppId, b: AppId, act: Action)
    requires Inv(s) && s.shared.mutex == a && a in s.apps
    ensures var t := Step(s, b, act);
            if (b, act) == (a, Advance)
            then t.shared.mutex == 0 || (t.shared.mutex == a && HoldLeft(t.apps[a].at) < HoldLeft(s.apps[a].at))
            else t.shared.mutex == a && t.apps[a] == s.apps[a]
  {
    hide Act;
    if b == a {
      assert AppOk(a, s.apps[a], s.shared);
      HolderAdvances(a, s.apps[a], s.shared, act);
    } else {
      LockRespected(s, a, b, act);
    }
  }

  lemma LockRespected(s: State, a: AppId, b: AppId, act: Action)
    requires Inv(s) && s.shared.mutex == a && a != b
    ensures Step(s, b, act).shared.mutex == a && Step(s, b, act).apps[a] == s.apps[a]
  {
    if b in s.apps {
      assert AppOk(b, s.apps[b], s.shared);
      LockOthers(b, s.apps[b], s.shared, act);
    }
  }

  lemma LockOthers(b: AppId, x: App, sh: Shared, act: Action)
    requires AppOk(b, x, sh) && sh.mutex != b && sh.mutex != 0
    ensures Act(b, x, sh, act).1.mutex == sh.mutex
  {}
}
