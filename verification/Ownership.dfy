/**
  The test-ownership protocol of the assert library: any number of applications, each with its own program
  counter, calling register and execute in any interleaving. One step touches one shared variable, save that
  the log file is opened and closed in one step by its owner.
 */
module Ownership {
  import LogFile

  type AppId = a: nat | a > 0 witness 1

  const UNDEFINED: nat := 0
  const PATH_LEN := 64
  const API_LEN := 20
  const STARTUP := "CFE-STARTUP"

  datatype LibState = Init | Startup | Active
  datatype Callback = SysLog | Report | Other(id: nat)
  datatype Log = Log(desc: nat, final: string, temp: string)
  datatype Event = BeginTest(name: string) | EndTest

  /** The library's global data. A `mutex` or `owner` of zero means that nobody has it. */
  datatype Shared = Shared(mutex: nat, owner: nat, libState: LibState, callback: Callback, log: Log,
                           testName: string, trace: seq<Event>)

  /** What the application's next step is. */
  datatype Place =
    | Idle                                    // in neither function
    | Entering | WantLock | Testing           // register: event services and system state; lock; the loop test
    | Releasing | Delaying                    // the body of the polling loop
    | Claiming | ClaimUnlock                  // recording ownership, under the lock
    | TestState | EndStartup | SetActive      // closing the startup segment
    | EarlyInit | SetName | SetCallback | BeginSetup
    | Owning                                  // register returned success
    | Checking | EndSetup | RunTests          // execute: the sanity check; the tests
    | ExecLock | ClearCallback | CloseLog | ClearOwner | ExecUnlock
    | Exited                                  // the task ended on an abort

  /**
    `owning` records that the application has taken ownership and not given it up. `name` is the test's name;
    a second call of an owner never comes to use another one.
   */
  datatype App = App(at: Place, name: string, owning: bool)

  datatype State = State(apps: map<AppId, App>, shared: Shared)

  datatype Action =
    | Register(name: string)
    | Execute
    | OpenLogFile(filename: string, desc: nat)   // `desc` is what the system leaves in the descriptor
    | CloseLogFile
    | RegisterCallback(callback: Callback)
    | Abort
    | Fail
    | Advance

  // ----------------------------------------------------------------- steps

  const NO_LOG := Log(0, "", "")

  function SetupName(name: string): string { LogFile.Stored(name + " TEST SETUP", 64) }

  function OpenedLog(filename: string, desc: nat): Log {
    Log(desc, LogFile.Stored(filename, PATH_LEN), LogFile.TempName(filename, PATH_LEN))
  }

  /** Where a call that refuses its caller goes back to. */
  function Back(x: App): Place { if x.owning then Owning else Idle }

  /** Where an owner's own code runs: after registering, and in the tests it has registered. */
  predicate MayUse(p: Place) { p in {Owning, RunTests} }

  /** One application's own step: its counter and the shared data. A step that cannot be taken changes nothing. */
  function Act(a: AppId, x: App, sh: Shared, act: Action): (App, Shared) {
    match act
    case Register(name) =>
      if x.at in {Idle, Owning} then (x.(at := Entering, name := if x.owning then x.name else name), sh) else (x, sh)
    case Execute =>
      if x.at in {Idle, Owning} then (x.(at := Checking), sh) else (x, sh)
    case OpenLogFile(filename, desc) =>
      if MayUse(x.at) then (x, sh.(log := OpenedLog(filename, desc))) else (x, sh)
    case CloseLogFile =>
      if MayUse(x.at) then (x, sh.(log := NO_LOG)) else (x, sh)
    case RegisterCallback(callback) =>
      if MayUse(x.at) then (x, sh.(callback := callback)) else (x, sh)
    case Abort =>
      if x.at in {Idle, Owning, RunTests} then (x.(at := Exited), sh) else (x, sh)
    case Fail =>
      if x.at in {Entering, Checking} then (x.(at := Back(x)), sh) else (x, sh)
    case Advance =>
      Next(a, x, sh)
  }

  function Next(a: AppId, x: App, sh: Shared): (App, Shared) {
    match x.at
    case Idle => (x, sh)
    case Entering => (x.(at := WantLock), sh)
    case WantLock => if sh.mutex == 0 then (x.(at := Testing), sh.(mutex := a)) else (x, sh)
    case Testing => (x.(at := if sh.owner != UNDEFINED then Releasing else Claiming), sh)
    case Releasing => (x.(at := Delaying), sh.(mutex := 0))
    case Delaying => (x.(at := WantLock), sh)
    case Claiming => (x.(at := ClaimUnlock, owning := true), sh.(owner := a))
    case ClaimUnlock => (x.(at := TestState), sh.(mutex := 0))
    case TestState => (x.(at := if sh.libState != Active then EndStartup else EarlyInit), sh)
    case EndStartup => (x.(at := SetActive), sh.(trace := sh.trace + [EndTest]))
    case SetActive => (x.(at := EarlyInit), sh.(libState := Active))
    case EarlyInit => (x.(at := SetName), sh)
    case SetName => (x.(at := SetCallback), sh.(testName := LogFile.Stored(x.name, API_LEN)))
    case SetCallback => (x.(at := BeginSetup), sh.(callback := Report))
    case BeginSetup => (x.(at := Owning), sh.(trace := sh.trace + [BeginTest(SetupName(x.name))]))
    case Owning => (x, sh)
    case Checking => (x.(at := if sh.owner == a then EndSetup else Back(x)), sh)
    case EndSetup => (x.(at := RunTests), sh.(trace := sh.trace + [EndTest]))
    case RunTests => (x.(at := ExecLock), sh)
    case ExecLock => if sh.mutex == 0 then (x.(at := ClearCallback), sh.(mutex := a)) else (x, sh)
    case ClearCallback => (x.(at := CloseLog), sh.(callback := SysLog))
    case CloseLog => (x.(at := ClearOwner), sh.(log := NO_LOG))
    case ClearOwner => (x.(at := ExecUnlock, owning := false), sh.(owner := UNDEFINED))
    case ExecUnlock => (x.(at := Idle), sh.(mutex := 0))
    case Exited => (x, sh)
  }

  function Step(s: State, a: AppId, act: Action): (r: State)
    ensures r.apps.Keys == s.apps.Keys
  {
    if a !in s.apps then s else
    var (x, sh) := Act(a, s.apps[a], s.shared, act);
    State(s.apps[a := x], sh)
  }

  type Schedule = seq<(AppId, Action)>

  function Run(s: State, sched: Schedule): (r: State)
    ensures r.apps.Keys == s.apps.Keys
    decreases |sched|
  {
    if sched == [] then s else Run(Step(s, sched[0].0, sched[0].1), sched[1..])
  }

  lemma RunPrefix(s: State, sched: Schedule, k: nat)
    requires k < |sched|
    ensures Run(s, sched[..k + 1]) == Run(Step(s, sched[0].0, sched[0].1), sched[1..][..k])
  {
    assert sched[..k + 1][1..] == sched[1..][..k];
  }

  lemma {:induction false} RunConcat(s: State, u: Schedule, v: Schedule)
    ensures Run(s, u + v) == Run(Run(s, u), v)
    decreases |u|
  {
    if u == [] {
      assert u + v == v;
    } else {
      assert (u + v)[1..] == u[1..] + v;
      RunConcat(Step(s, u[0].0, u[0].1), u[1..], v);
    }
  }

  lemma RunTwo(s: State, a: AppId, x: Action, y: Action)
    ensures Run(s, [(a, x), (a, y)]) == Step(Step(s, a, x), a, y)
  {
    hide Step;
    var t, last: Schedule := Step(s, a, x), [(a, y)];
    assert [(a, x), (a, y)][1..] == last && last[1..] == [];
    assert Run(t, last) == Run(Step(t, a, y), []);
  }

  /** After the library's initialisation: nobody owns it and the startup segment is open. */
  function Initial(ids: set<AppId>): State {
    State(map a | a in ids :: App(Idle, "", false),
          Shared(0, UNDEFINED, Init, SysLog, NO_LOG, "", [BeginTest(STARTUP)]))
  }

  // ----------------------------------------------------------------- the invariant

  predicate Holding(p: Place) {
    p in {Testing, Releasing, Claiming, ClaimUnlock, ClearCallback, CloseLog, ClearOwner, ExecUnlock}
  }

  predicate Clean(sh: Shared) { sh.callback == SysLog && sh.log == NO_LOG }

  predicate Open(t: seq<Event>) { |t| % 2 == 1 }

  ghost predicate IsSetupName(n: string) { exists name :: n == SetupName(name) }

  /** Begins and ends alternate; the first segment is the startup one and the others are test setups. */
  ghost predicate Alternates(t: seq<Event>) {
    && |t| >= 1 && t[0] == BeginTest(STARTUP)
    && (forall i :: 0 <= i < |t| ==> (t[i].BeginTest? <==> i % 2 == 0))
    && (forall i :: 0 < i < |t| && t[i].BeginTest? ==> IsSetupName(t[i].name))
  }

  /** The startup segment is open exactly until the library becomes active, and no other is. */
  predicate Ready(sh: Shared) {
    if sh.libState == Active then !Open(sh.trace) && |sh.trace| >= 2 else |sh.trace| == 1
  }

  ghost predicate GlobalOk(sh: Shared) {
    && sh.libState != Startup
    && Alternates(sh.trace)
    && (sh.libState == Active ==> |sh.trace| >= 2)
    && (sh.libState == Init ==> sh.testName == "")
    && (sh.owner == UNDEFINED ==> Clean(sh) && Ready(sh))
  }

  /** What holds of the shared data while its owner is at a place. */
  predicate Phase(p: Place, sh: Shared) {
    match p
    case ClaimUnlock | TestState => Clean(sh) && Ready(sh)
    case EndStartup => Clean(sh) && Ready(sh) && sh.libState == Init
    case SetActive => Clean(sh) && sh.libState == Init && |sh.trace| == 2
    case EarlyInit | SetName | SetCallback => Clean(sh) && sh.libState == Active && Ready(sh)
    case BeginSetup => sh.libState == Active && Ready(sh) && sh.callback == Report && sh.log == NO_LOG
    case RunTests | ExecLock | ClearCallback => sh.libState == Active && Ready(sh)
    case CloseLog => sh.libState == Active && Ready(sh) && sh.callback == SysLog
    case ClearOwner => sh.libState == Active && Ready(sh) && Clean(sh)
    case Owning | Entering | WantLock | Testing | Releasing | Delaying | Checking | EndSetup =>
      sh.libState == Active && Open(sh.trace)
    case Exited => sh.libState == Active
    case Idle | Claiming | ExecUnlock => false
  }

  predicate MustOwn(p: Place) {
    p in {ClaimUnlock, TestState, EndStartup, SetActive, EarlyInit, SetName, SetCallback, BeginSetup, Owning,
          EndSetup, RunTests, ExecLock, ClearCallback, CloseLog, ClearOwner}
  }

  predicate AppOk(a: AppId, x: App, sh: Shared) {
    && (Holding(x.at) <==> sh.mutex == a)
    && (x.owning <==> sh.owner == a)
    && (MustOwn(x.at) ==> x.owning)
    && (x.at == Claiming ==> sh.owner == UNDEFINED)
    && (x.owning ==> Phase(x.at, sh) && Labelled(x, sh))
  }

  /** From the time it has set its name, the current test is the owner's, and so is the segment that is open. */
  predicate Labelled(x: App, sh: Shared) {
    && (x.at !in {ClaimUnlock, TestState, EndStartup, SetActive, EarlyInit, SetName} ==>
          sh.testName == LogFile.Stored(x.name, API_LEN))
    && (x.at in {Owning, Entering, WantLock, Testing, Releasing, Delaying, Checking, EndSetup} ==>
          sh.trace != [] && sh.trace[|sh.trace| - 1] == BeginTest(SetupName(x.name)))
  }

  ghost predicate Inv(s: State) {
    && (s.shared.mutex != 0 ==> s.shared.mutex in s.apps)
    && (s.shared.owner != UNDEFINED ==> s.shared.owner in s.apps)
    && GlobalOk(s.shared)
    && forall a :: a in s.apps ==> AppOk(a, s.apps[a], s.shared)
  }

  lemma AlternatesAppend(t: seq<Event>, e: Event)
    requires Alternates(t)
    requires if Open(t) then e == EndTest else e.BeginTest? && IsSetupName(e.name)
    ensures Alternates(t + [e])
  {}

  lemma ActKeeps(a: AppId, x: App, sh: Shared, act: Action)
    requires AppOk(a, x, sh) && GlobalOk(sh)
    ensures var (y, th) := Act(a, x, sh, act); AppOk(a, y, th) && GlobalOk(th)
  {
    hide Alternates;
    hide Next;
    hide SetupName;
    hide LogFile.Stored;
    hide LogFile.TempName;
    if act == Advance {
      if MustOwn(x.at) { OwnerKeeps(a, x, sh); } else { VisitorKeeps(a, x, sh); }
    }
  }

  lemma VisitorKeeps(a: AppId, x: App, sh: Shared)
    requires AppOk(a, x, sh) && GlobalOk(sh) && !MustOwn(x.at)
    ensures var (y, th) := Next(a, x, sh); AppOk(a, y, th) && GlobalOk(th)
  {
    hide Alternates;
    hide LogFile.Stored;
  }

  lemma OwnerKeeps(a: AppId, x: App, sh: Shared)
    requires AppOk(a, x, sh) && GlobalOk(sh) && MustOwn(x.at)
    ensures var (y, th) := Next(a, x, sh); AppOk(a, y, th) && GlobalOk(th)
  {
    hide Next;
    hide AppOk;
    hide GlobalOk;
    if x.at in {EndStartup, EndSetup, BeginSetup} {
      SegmentKeeps(a, x, sh);
    } else if x.at in {RunTests, ExecLock, ClearCallback, CloseLog, ClearOwner} {
      ReleaseKeeps(a, x, sh);
    } else {
      SetupKeeps(a, x, sh);
    }
  }

  lemma ReleaseKeeps(a: AppId, x: App, sh: Shared)
    requires AppOk(a, x, sh) && GlobalOk(sh) && x.at in {RunTests, ExecLock, ClearCallback, CloseLog, ClearOwner}
    ensures var (y, th) := Next(a, x, sh); AppOk(a, y, th) && GlobalOk(th)
  {
    hide Alternates;
    hide SetupName;
    hide LogFile.Stored;
  }

  lemma SetupKeeps(a: AppId, x: App, sh: Shared)
    requires AppOk(a, x, sh) && GlobalOk(sh)
    requires x.at in {ClaimUnlock, TestState, SetActive, EarlyInit, SetName, SetCallback, Owning}
    ensures var (y, th) := Next(a, x, sh); AppOk(a, y, th) && GlobalOk(th)
  {
    hide Alternates;
    hide SetupName;
    hide LogFile.Stored;
  }

  /** The three places where a segment is opened or closed. */
  lemma SegmentKeeps(a: AppId, x: App, sh: Shared)
    requires AppOk(a, x, sh) && GlobalOk(sh) && x.at in {EndStartup, EndSetup, BeginSetup}
    ensures var (y, th) := Next(a, x, sh); AppOk(a, y, th) && GlobalOk(th)
  {
    hide AppOk;
    hide GlobalOk;
    hide Next;
    if x.at == BeginSetup { BeginKeeps(a, x, sh); } else { EndKeeps(a, x, sh); }
  }

  lemma EndKeeps(a: AppId, x: App, sh: Shared)
    requires AppOk(a, x, sh) && GlobalOk(sh) && x.at in {EndStartup, EndSetup}
    ensures var (y, th) := Next(a, x, sh); AppOk(a, y, th) && GlobalOk(th)
  {
    hide Alternates;
    hide SetupName;
    hide IsSetupName;
    hide LogFile.Stored;
    AlternatesAppend(sh.trace, EndTest);
  }

  lemma BeginKeeps(a: AppId, x: App, sh: Shared)
    requires AppOk(a, x, sh) && GlobalOk(sh) && x.at == BeginSetup
    ensures var (y, th) := Next(a, x, sh); AppOk(a, y, th) && GlobalOk(th)
  {
    hide Alternates;
    hide SetupName;
    hide IsSetupName;
    hide LogFile.Stored;
    var e := BeginTest(SetupName(x.name));
    NamedSetup(x.name);
    AlternatesAppend(sh.trace, e);
  }

  lemma NamedSetup(name: string)
    ensures IsSetupName(SetupName(name))
  {}

  /** A step by one application keeps what holds of every other. */
  lemma ActRespects(a: AppId, x: App, sh: Shared, act: Action, b: AppId, y: App)
    requires a != b && AppOk(a, x, sh) && AppOk(b, y, sh) && GlobalOk(sh)
    ensures AppOk(b, y, Act(a, x, sh, act).1)
  {
    hide Alternates;
    hide SetupName;
    hide LogFile.Stored;
    hide LogFile.TempName;
  }

  lemma StepKeeps(s: State, a: AppId, act: Action)
    requires Inv(s)
    ensures Inv(Step(s, a, act))
  {
    hide AppOk;
    hide GlobalOk;
    if a in s.apps {
      var x := s.apps[a];
      ActKeeps(a, x, s.shared, act);
      forall b | b in s.apps && b != a
        ensures AppOk(b, s.apps[b], Act(a, x, s.shared, act).1)
      {
        ActRespects(a, x, s.shared, act, b, s.apps[b]);
      }
    }
  }

  lemma {:induction false} RunKeeps(s: State, sched: Schedule)
    requires Inv(s)
    ensures Inv(Run(s, sched))
    decreases |sched|
  {
    if sched != [] {
      StepKeeps(s, sched[0].0, sched[0].1);
      RunKeeps(Step(s, sched[0].0, sched[0].1), sched[1..]);
    }
  }

  lemma InitialInv(ids: set<AppId>)
    ensures Inv(Initial(ids))
  {}
}
