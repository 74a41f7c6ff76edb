/**
  What an owner's own calls come to: results are reported through the library's callback from registration on,
  unless the owner registers another one; a log opened is the log written until the owner closes it; and a
  test's setup segment is called after the test.
 */
module OwnershipCalls {
  import opened Ownership
  import opened OwnershipRules
  import LogFile

  /** From the registration of the reporting callback to the step that clears it, or to an abort in between. */
  predicate Using(p: Place) {
    p in {BeginSetup, Owning, Entering, WantLock, Testing, Releasing, Delaying, Checking, EndSetup, RunTests, ExecLock,
          ClearCallback, Exited}
  }

  /** The same for the log, which is closed one step later. */
  predicate Logging(p: Place) { Using(p) || p == CloseLog }

  /** The callback that an owner's calls leave, `c` being the one before. */
  function LastCallback(s: State, sched: Schedule, a: AppId, c: Callback): Callback
    decreases |sched|
  {
    if sched == [] then c else
    var (b, act) := sched[0];
    LastCallback(Step(s, b, act), sched[1..], a, CallbackAfter(s, b, act, a, c))
  }

  function CallbackAfter(s: State, b: AppId, act: Action, a: AppId, c: Callback): Callback {
    if b == a && a in s.apps && act.RegisterCallback? && s.apps[a].at in {Owning, RunTests} then act.callback else c
  }

  /** The log that an owner's calls leave. */
  function LastLog(s: State, sched: Schedule, a: AppId, log: Log): Log
    decreases |sched|
  {
    if sched == [] then log else
    var (b, act) := sched[0];
    LastLog(Step(s, b, act), sched[1..], a, LogAfter(s, b, act, a, log))
  }

  function LogAfter(s: State, b: AppId, act: Action, a: AppId, log: Log): Log {
    if b != a || a !in s.apps || s.apps[a].at !in {Owning, RunTests} then log
    else if act.OpenLogFile? then
      Log(act.desc, LogFile.Stored(act.filename, PATH_LEN), LogFile.TempName(act.filename, PATH_LEN))
    else if act.CloseLogFile? then Log(0, "", "")
    else log
  }

  /** The `k`th turn is `a`'s own step from a place. */
  predicate LeavesAt(s: State, sched: Schedule, a: AppId, p: Place, k: int) {
    0 <= k < |sched| && a in s.apps && sched[k] == (a, Advance) && Run(s, sched[..k]).apps[a].at == p
  }

  predicate HasCallback(s: State, a: AppId, c: Callback) {
    s.shared.owner == a && a in s.apps && Using(s.apps[a].at) && s.shared.callback == c
  }

  predicate HasLog(s: State, a: AppId, log: Log) {
    s.shared.owner == a && a in s.apps && Logging(s.apps[a].at) && s.shared.log == log
  }

  lemma OwnCallback(a: AppId, x: App, sh: Shared, act: Action)
    requires AppOk(a, x, sh) && sh.owner == a && Using(x.at) && !(act == Advance && x.at == ClearCallback)
    ensures var (y, th) := Act(a, x, sh, act);
            && th.owner == a && Using(y.at)
            && th.callback == if act.RegisterCallback? && x.at in {Owning, RunTests} then act.callback else sh.callback
  {
    hide LogFile.Stored;
    hide LogFile.TempName;
    hide SetupName;
  }

  lemma OwnLog(a: AppId, x: App, sh: Shared, act: Action)
    requires AppOk(a, x, sh) && sh.owner == a && Logging(x.at) && !(act == Advance && x.at == CloseLog)
    ensures var (y, th) := Act(a, x, sh, act);
            && th.owner == a && Logging(y.at)
            && (!(act.OpenLogFile? || act.CloseLogFile?) || x.at !in {Owning, RunTests} ==> th.log == sh.log)
            && (act.CloseLogFile? && x.at in {Owning, RunTests} ==> th.log == Log(0, "", ""))
            && (act.OpenLogFile? && x.at in {Owning, RunTests} ==>
                  th.log == Log(act.desc, LogFile.Stored(act.filename, PATH_LEN),
                                LogFile.TempName(act.filename, PATH_LEN)))
  {
    hide LogFile.Stored;
    hide LogFile.TempName;
    hide SetupName;
  }

  lemma CallbackStep(s: State, b: AppId, act: Action, a: AppId, c: Callback)
    requires Inv(s) && HasCallback(s, a, c) && !((b, act) == (a, Advance) && s.apps[a].at == ClearCallback)
    ensures HasCallback(Step(s, b, act), a, CallbackAfter(s, b, act, a, c))
  {
    hide Act;
    if b == a {
      assert AppOk(a, s.apps[a], s.shared);
      OwnCallback(a, s.apps[a], s.shared, act);
    } else {
      OnlyOwnerChanges(s, b, act);
    }
  }

  lemma LogStep(s: State, b: AppId, act: Action, a: AppId, log: Log)
    requires Inv(s) && HasLog(s, a, log) && !((b, act) == (a, Advance) && s.apps[a].at == CloseLog)
    ensures HasLog(Step(s, b, act), a, LogAfter(s, b, act, a, log))
  {
    hide Act;
    hide LogFile.Stored;
    hide LogFile.TempName;
    if b == a {
      assert AppOk(a, s.apps[a], s.shared);
      OwnLog(a, s.apps[a], s.shared, act);
    } else {
      OnlyOwnerChanges(s, b, act);
    }
  }

  /** The callback is the one the owner last registered, whatever others do, until the owner's own step clears it. */
  lemma {:induction false} CallbackStays(s: State, sched: Schedule, a: AppId, c: Callback)
    requires Inv(s) && HasCallback(s, a, c)
    ensures HasCallback(Run(s, sched), a, LastCallback(s, sched, a, c))
         || exists k :: LeavesAt(s, sched, a, ClearCallback, k)
    decreases |sched|
  {
    hide Inv;
    hide Step;
    hide HasCallback;
    if sched != [] {
      var (b, act) := sched[0];
      assert a in s.apps && Run(s, sched[..0]) == s by { InApps(s, a, c); }
      if (b, act) == (a, Advance) && s.apps[a].at == ClearCallback {
        assert LeavesAt(s, sched, a, ClearCallback, 0);
      } else {
        CallbackStep(s, b, act, a, c);
        StepKeeps(s, b, act);
        var t, d := Step(s, b, act), CallbackAfter(s, b, act, a, c);
        CallbackStays(t, sched[1..], a, d);
        if k :| LeavesAt(t, sched[1..], a, ClearCallback, k) {
          RunPrefix(s, sched, k);
          assert LeavesAt(s, sched, a, ClearCallback, k + 1);
        }
      }
    }
  }

  lemma InApps(s: State, a: AppId, c: Callback)
    requires HasCallback(s, a, c)
    ensures a in s.apps
  {}

  /** So is the log: the one the owner last opened, or none after it has closed it. */
  lemma {:induction false} LogStays(s: State, sched: Schedule, a: AppId, log: Log)
    requires Inv(s) && HasLog(s, a, log)
    ensures HasLog(Run(s, sched), a, LastLog(s, sched, a, log)) || exists k :: LeavesAt(s, sched, a, CloseLog, k)
    decreases |sched|
  {
    assert a in s.apps;
    hide Inv;
    hide Step;
    hide HasLog;
    hide LogAfter;
    if sched != [] {
      var (b, act) := sched[0];
      assert Run(s, sched[..0]) == s;
      if (b, act) == (a, Advance) && s.apps[a].at == CloseLog {
        assert LeavesAt(s, sched, a, CloseLog, 0);
      } else {
        LogStep(s, b, act, a, log);
        StepKeeps(s, b, act);
        var t, next := Step(s, b, act), LogAfter(s, b, act, a, log);
        LogStays(t, sched[1..], a, next);
        if k :| LeavesAt(t, sched[1..], a, CloseLog, k) {
          RunPrefix(s, sched, k);
          assert LeavesAt(s, sched, a, CloseLog, k + 1);
        }
      }
    }
  }

  /** In every run, a registration has set the reporting callback, and no log, when it comes to its first segment. */
  lemma SetupReports(ids: set<AppId>, past: Schedule, a: AppId)
    requires a in ids && Run(Initial(ids), past).apps[a].at == BeginSetup
    ensures HasCallback(Run(Initial(ids), past), a, Report) && HasLog(Run(Initial(ids), past), a, Log(0, "", ""))
    ensures Inv(Run(Initial(ids), past))
  {
    InitialInv(ids);
    RunKeeps(Initial(ids), past);
    var s := Run(Initial(ids), past);
    hide Run;
    assert AppOk(a, s.apps[a], s.shared);
    hide GlobalOk;
  }

  predicate RegistersNone(sched: Schedule, a: AppId) {
    forall i :: 0 <= i < |sched| && sched[i].0 == a ==> !sched[i].1.RegisterCallback?
  }

  /**
    From then on, in every continuation in which the owner registers no callback of its own, everything is reported
    through the library's callback until the owner clears it at the end of its execute.
   */
  lemma ReportStays(ids: set<AppId>, past: Schedule, a: AppId, sched: Schedule)
    requires a in ids && Run(Initial(ids), past).apps[a].at == BeginSetup && RegistersNone(sched, a)
    ensures var s := Run(Initial(ids), past);
            HasCallback(Run(s, sched), a, Report) || exists k :: LeavesAt(s, sched, a, ClearCallback, k)
  {
    var s := Run(Initial(ids), past);
    SetupReports(ids, past, a);
    hide Run;
    CallbackStays(s, sched, a, Report);
    NoneRegistered(s, sched, a, Report);
  }

  lemma {:induction false} NoneRegistered(s: State, sched: Schedule, a: AppId, c: Callback)
    requires RegistersNone(sched, a)
    ensures LastCallback(s, sched, a, c) == c
    decreases |sched|
  {
    hide Step;
    if sched != [] {
      assert forall i :: 0 <= i < |sched| - 1 ==> sched[1..][i] == sched[i + 1];
      NoneRegistered(Step(s, sched[0].0, sched[0].1), sched[1..], a, c);
    }
  }

  /** The segment that is open while an owner sets its tests up is named after its test, as far as 63 characters go. */
  lemma SetupSegment(ids: set<AppId>, past: Schedule, a: AppId)
    requires a in ids && Run(Initial(ids), past).apps[a].at == Owning
    ensures var s := Run(Initial(ids), past);
            var name, t := s.apps[a].name, s.shared.trace;
            && t != [] && t[|t| - 1].BeginTest? && t[|t| - 1].name <= name + " TEST SETUP"
            && |t[|t| - 1].name| == if |name| + 11 <= 63 then |name| + 11 else 63
  {
    hide Run;
    hide LogFile.Stored;
    OwnerLabelled(ids, past, a);
    MutualExclusion(ids, past);
  }
}
