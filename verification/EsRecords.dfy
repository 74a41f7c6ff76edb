/**
  The application and task tables of executive services: setting up an application with its main task, adding
  child tasks, changing states, and counting an application's children.
 */
module EsRecords {
  import opened Bits
  import opened Options
  import LogFile

  const APP_BASE: nat := 0x0011_0000
  const TASK_BASE: nat := 0x0001_0000
  const UNUSED: nat := 0
  const CORE := 1
  const EXTERNAL := 2
  const RUNNING := 3
  const NAME_LEN := 20

  /** A record is in use when its identifier is not zero. */
  datatype AppRecord = AppRecord(id: nat, kind: nat, state: nat, name: string, mainTask: nat, moduleId: nat)
  datatype TaskRecord =
    TaskRecord(id: nat, app: nat, name: string, executions: uint32, stackSize: size_t, priority: nat)

  /** What a query reports of a main task. */
  datatype TaskInfo = TaskInfo(name: string, executions: uint32, stackSize: size_t, priority: nat)

  const UNUSED_TASK := TaskRecord(UNUSED, UNUSED, "", 0, 0, 0)

  datatype Tables = Tables(apps: seq<AppRecord>, tasks: seq<TaskRecord>, lastAppId: nat,
                           core: uint32, external: uint32, registered: uint32)

  /** Slot of an identifier in a table of a size. */
  function AppSlot(size: nat, id: nat): (i: nat)
    requires size > 0
    ensures i < size
  {
    (id - APP_BASE) % size
  }

  function TaskSlot(size: nat, id: nat): (j: nat)
    requires size > 0
    ensures j < size
  {
    (id - TASK_BASE) % size
  }

  predicate Sized(v: Tables) { 0 < |v.apps| < UINT32_T && 0 < |v.tasks| < UINT32_T }

  function Renamed(kept: string, name: Option<string>): string {
    if name.Some? then LogFile.Stored(name.value, NAME_LEN) else kept
  }

  /** `taskId` and `moduleId` are what the operating system hands out. */
  function SetupApp(v: Tables, kind: nat, state: nat, name: Option<string>, taskId: nat, moduleId: nat): Tables
    requires Sized(v)
  {
    var id := v.lastAppId;
    var i, j := AppSlot(|v.apps|, id), TaskSlot(|v.tasks|, taskId);
    var a, t := v.apps[i], v.tasks[j];
    v.(lastAppId := id + 1,
       apps := v.apps[i := AppRecord(id, kind, state, Renamed(a.name, name), taskId,
                                     if kind == EXTERNAL then moduleId else a.moduleId)],
       tasks := v.tasks[j := t.(id := taskId, app := id, name := Renamed(t.name, name))],
       core := if kind == CORE then ToU32(v.core + 1) else v.core,
       external := if kind == EXTERNAL then ToU32(v.external + 1) else v.external,
       registered := ToU32(v.registered + 1))
  }

  function SetupChild(v: Tables, parent: nat, name: Option<string>, taskId: nat): Tables
    requires Sized(v) && parent < |v.apps|
  {
    var j := TaskSlot(|v.tasks|, taskId);
    v.(tasks := v.tasks[j := v.tasks[j].(id := taskId, app := v.apps[parent].id,
                                         name := Renamed(v.tasks[j].name, name))],
       registered := ToU32(v.registered + 1))
  }

  /** A filter of kind zero takes every kind; no filter at all sets every application running. */
  function Hooked(a: AppRecord, filter: Option<(nat, nat)>): AppRecord {
    if a.id == UNUSED then a
    else if filter.None? then a.(state := RUNNING)
    else if filter.value.0 == 0 || a.kind == filter.value.0 then a.(state := filter.value.1)
    else a
  }

  function SetStates(v: Tables, filter: Option<(nat, nat)>): (r: Tables)
    ensures |r.apps| == |v.apps|
    ensures forall i :: 0 <= i < |v.apps| ==> r.apps[i] == Hooked(v.apps[i], filter)
    ensures r == v.(apps := r.apps)
  {
    v.(apps := seq(|v.apps|, i requires 0 <= i < |v.apps| => Hooked(v.apps[i], filter)))
  }

  // ----------------------------------------------------------------- counting

  function Count<T>(s: seq<T>, p: T -> bool): (n: nat)
    ensures n <= |s|
  {
    if s == [] then 0 else Count(s[..|s| - 1], p) + if p(s[|s| - 1]) then 1 else 0
  }

  lemma {:induction false} CountUpdate<T>(s: seq<T>, i: nat, x: T, p: T -> bool)
    requires i < |s|
    ensures Count(s[i := x], p) + (if p(s[i]) then 1 else 0) == Count(s, p) + if p(x) then 1 else 0
  {
    var t := s[i := x];
    if i < |s| - 1 {
      assert t[..|s| - 1] == s[..|s| - 1][i := x];
      CountUpdate(s[..|s| - 1], i, x, p);
    } else {
      assert t[..|s| - 1] == s[..|s| - 1];
    }
  }

  lemma {:induction false} CountSame<T>(s: seq<T>, t: seq<T>, p: T -> bool)
    requires |s| == |t| && forall i :: 0 <= i < |s| ==> p(s[i]) == p(t[i])
    ensures Count(s, p) == Count(t, p)
  {
    if s != [] { CountSame(s[..|s| - 1], t[..|t| - 1], p); }
  }

  lemma {:induction false} CountNone<T>(s: seq<T>, p: T -> bool)
    requires forall i :: 0 <= i < |s| ==> !p(s[i])
    ensures Count(s, p) == 0
  {
    if s != [] { CountNone(s[..|s| - 1], p); }
  }

  function OfKind(kind: nat): AppRecord -> bool { (a: AppRecord) => a.id != UNUSED && a.kind == kind }

  function UsedTask(): TaskRecord -> bool { (t: TaskRecord) => t.id != UNUSED }

  function ChildOf(app: nat, mainTask: nat): TaskRecord -> bool {
    (t: TaskRecord) => t.id != UNUSED && t.app == app && t.id != mainTask
  }

  // ----------------------------------------------------------------- the graph of records

  predicate AppUsed(v: Tables, id: nat) { exists i :: 0 <= i < |v.apps| && v.apps[i].id == id }

  predicate TaskOf(v: Tables, task: nat, app: nat) {
    exists j :: 0 <= j < |v.tasks| && v.tasks[j].id == task && v.tasks[j].app == app
  }

  predicate DistinctIds(v: Tables) {
    && (forall i, k :: 0 <= i < k < |v.apps| && v.apps[i].id != UNUSED ==> v.apps[i].id != v.apps[k].id)
    && (forall j, k :: 0 <= j < k < |v.tasks| && v.tasks[j].id != UNUSED ==> v.tasks[j].id != v.tasks[k].id)
  }

  /** Every task belongs to an application in use, and every application's main task is one of its own. */
  predicate Links(v: Tables) {
    && (forall j :: 0 <= j < |v.tasks| && v.tasks[j].id != UNUSED ==>
          v.tasks[j].app != UNUSED && AppUsed(v, v.tasks[j].app))
    && (forall i :: 0 <= i < |v.apps| && v.apps[i].id != UNUSED ==>
          v.apps[i].mainTask != UNUSED && TaskOf(v, v.apps[i].mainTask, v.apps[i].id))
  }

  /** The counters are the numbers of matching records. */
  predicate Counters(v: Tables) {
    && v.core == Count(v.apps, OfKind(CORE)) && v.external == Count(v.apps, OfKind(EXTERNAL))
    && v.registered == Count(v.tasks, UsedTask())
  }

  predicate Graph(v: Tables) { DistinctIds(v) && Links(v) && Counters(v) }

  /** Identifiers are handed out in order and sit in the slots they name. */
  predicate Numbered(v: Tables) {
    && Sized(v)
    && APP_BASE <= v.lastAppId <= APP_BASE + |v.apps|
    && (forall i :: 0 <= i < |v.apps| ==> v.apps[i].id == if APP_BASE + i < v.lastAppId then APP_BASE + i else UNUSED)
    && (forall j :: 0 <= j < |v.tasks| && v.tasks[j].id != UNUSED ==> TaskSlot(|v.tasks|, v.tasks[j].id) == j)
  }

  predicate Room(v: Tables) { v.lastAppId < APP_BASE + |v.apps| }

  /** The operating system hands out a task identifier whose slot is not in use. */
  predicate FreshTask(v: Tables, taskId: nat)
    requires Sized(v)
  {
    taskId >= TASK_BASE && v.tasks[TaskSlot(|v.tasks|, taskId)].id == UNUSED
  }

  lemma AppSlotNext(v: Tables)
    requires Numbered(v)
    ensures AppSlot(|v.apps|, v.lastAppId) == if Room(v) then v.lastAppId - APP_BASE else 0
  {
    var n, i := |v.apps|, v.lastAppId - APP_BASE;
    if i < n { DivModUnique(i, n, 0, i); } else { DivModUnique(i, n, 1, 0); }
  }

  lemma NumberedDistinct(v: Tables)
    requires Numbered(v)
    ensures DistinctIds(v)
  {
    hide TaskSlot;
  }

  lemma AppAdded(v: Tables, kind: nat, state: nat, name: Option<string>, taskId: nat, moduleId: nat)
    requires Numbered(v) && Room(v) && Graph(v) && FreshTask(v, taskId)
    ensures var r := SetupApp(v, kind, state, name, taskId, moduleId); Numbered(r) && Graph(r)
  {
    var r := SetupApp(v, kind, state, name, taskId, moduleId);
    AppSlotNext(v);
    var i, j := v.lastAppId - APP_BASE, TaskSlot(|v.tasks|, taskId);
    AppNumbered(v, r, i, j);
    AppCounted(v, r, i, j);
    KeepsLinks(v, r, i, j);
    NumberedDistinct(r);
    hide TaskSlot;
    hide AppSlot;
    hide LogFile.Stored;
    hide AppUsed;
    hide TaskOf;
    hide Counters;
    hide Numbered;
    hide DistinctIds;
    assert r.apps[i].mainTask == taskId == r.tasks[j].id && r.tasks[j].app == r.apps[i].id;
    assert Links(r);
  }

  /** `r` is `v` with a new application in slot `i` and its main task in slot `j`. */
  predicate NewRecords(v: Tables, r: Tables, i: nat, j: nat) {
    && i < |v.apps| == |r.apps| && j < |v.tasks| == |r.tasks|
    && v.apps[i].id == UNUSED && v.tasks[j].id == UNUSED && r.apps[i].id != UNUSED && r.tasks[j].id != UNUSED
    && r.apps == v.apps[i := r.apps[i]] && r.tasks == v.tasks[j := r.tasks[j]]
    && r.lastAppId == v.lastAppId + 1 && r.apps[i].id == v.lastAppId == APP_BASE + i
    && TaskSlot(|v.tasks|, r.tasks[j].id) == j
  }

  lemma AppNumbered(v: Tables, r: Tables, i: nat, j: nat)
    requires Numbered(v) && NewRecords(v, r, i, j)
    ensures Numbered(r)
  {
    hide TaskSlot;
  }

  lemma AppCounted(v: Tables, r: Tables, i: nat, j: nat)
    requires Sized(v) && Counters(v) && NewRecords(v, r, i, j)
    requires r.core == (if r.apps[i].kind == CORE then ToU32(v.core + 1) else v.core)
    requires r.external == (if r.apps[i].kind == EXTERNAL then ToU32(v.external + 1) else v.external)
    requires r.registered == ToU32(v.registered + 1)
    ensures Counters(r)
  {
    hide TaskSlot;
    CountUpdate(v.apps, i, r.apps[i], OfKind(CORE));
    CountUpdate(v.apps, i, r.apps[i], OfKind(EXTERNAL));
    CountUpdate(v.tasks, j, r.tasks[j], UsedTask());
  }

  /** Filling a free slot of either table keeps what the other records refer to. */
  lemma KeepsLinks(v: Tables, r: Tables, i: nat, j: nat)
    requires i < |v.apps| && j < |v.tasks| && v.tasks[j].id == UNUSED
    requires |r.apps| == |v.apps| && (r.apps == v.apps || (v.apps[i].id == UNUSED && r.apps == v.apps[i := r.apps[i]]))
    requires |r.tasks| == |v.tasks| && r.tasks == v.tasks[j := r.tasks[j]]
    ensures forall id {:trigger AppUsed(r, id)} :: id != UNUSED && AppUsed(v, id) ==> AppUsed(r, id)
    ensures forall task, app {:trigger TaskOf(r, task, app)} ::
              task != UNUSED && TaskOf(v, task, app) ==> TaskOf(r, task, app)
    ensures AppUsed(r, r.apps[i].id) && TaskOf(r, r.tasks[j].id, r.tasks[j].app)
  {
    forall id | id != UNUSED && AppUsed(v, id) ensures AppUsed(r, id) {
      var k :| 0 <= k < |v.apps| && v.apps[k].id == id;
      assert r.apps[k].id == id;
    }
    forall task, app | task != UNUSED && TaskOf(v, task, app) ensures TaskOf(r, task, app) {
      var k :| 0 <= k < |v.tasks| && v.tasks[k].id == task && v.tasks[k].app == app;
      assert r.tasks[k] == v.tasks[k];
    }
  }

  lemma ChildAdded(v: Tables, parent: nat, name: Option<string>, taskId: nat)
    requires Numbered(v) && Graph(v) && FreshTask(v, taskId) && parent < |v.apps| && v.apps[parent].id != UNUSED
    ensures var r := SetupChild(v, parent, name, taskId); Numbered(r) && Graph(r)
  {
    hide TaskSlot;
    hide LogFile.Stored;
    hide AppUsed;
    hide TaskOf;
    var r := SetupChild(v, parent, name, taskId);
    var j := TaskSlot(|v.tasks|, taskId);
    ChildNumbered(v, r, j);
    NumberedDistinct(r);
    CountUpdate(v.tasks, j, r.tasks[j], UsedTask());
    KeepsLinks(v, r, parent, j);
    hide Numbered;
    assert Counters(r);
    hide Counters;
    assert Links(r);
  }

  lemma ChildNumbered(v: Tables, r: Tables, j: nat)
    requires Numbered(v) && j < |v.tasks| == |r.tasks| && r.apps == v.apps && r.lastAppId == v.lastAppId
    requires r.tasks == v.tasks[j := r.tasks[j]] && TaskSlot(|v.tasks|, r.tasks[j].id) == j
    ensures Numbered(r)
  {
    hide TaskSlot;
  }

  lemma StatesSet(v: Tables, filter: Option<(nat, nat)>)
    requires Numbered(v) && Graph(v)
    ensures var r := SetStates(v, filter); Numbered(r) && Graph(r)
  {
    hide TaskSlot;
    hide AppUsed;
    hide TaskOf;
    var r := SetStates(v, filter);
    hide SetStates;
    assert forall i :: 0 <= i < |v.apps| ==> r.apps[i].id == v.apps[i].id && r.apps[i].kind == v.apps[i].kind;
    assert forall i :: 0 <= i < |v.apps| ==> r.apps[i].mainTask == v.apps[i].mainTask;
    assert Numbered(r);
    NumberedDistinct(r);
    CountSame(v.apps, r.apps, OfKind(CORE));
    CountSame(v.apps, r.apps, OfKind(EXTERNAL));
    assert Counters(r);
    forall id | AppUsed(v, id) ensures AppUsed(r, id) { StillUsed(v, r, id); }
    forall task, app | TaskOf(v, task, app) ensures TaskOf(r, task, app) { SameTasks(v, r, task, app); }
    hide Hooked;
    assert Links(r);
  }

  lemma StillUsed(v: Tables, r: Tables, id: nat)
    requires AppUsed(v, id) && |r.apps| == |v.apps| && forall i :: 0 <= i < |v.apps| ==> r.apps[i].id == v.apps[i].id
    ensures AppUsed(r, id)
  {
    var k :| 0 <= k < |v.apps| && v.apps[k].id == id;
    assert r.apps[k].id == id;
  }

  lemma SameTasks(v: Tables, r: Tables, task: nat, app: nat)
    requires TaskOf(v, task, app) && r.tasks == v.tasks
    ensures TaskOf(r, task, app)
  {}

  /** Once the table is full the next application overwrites the first one, whose main task is left naming an
      application that is gone: the graph is kept exactly while there is room. */
  lemma GraphKeptIffRoom(v: Tables, kind: nat, state: nat, name: Option<string>, taskId: nat, moduleId: nat)
    requires Numbered(v) && Graph(v) && FreshTask(v, taskId)
    ensures Graph(SetupApp(v, kind, state, name, taskId, moduleId)) <==> Room(v)
  {
    if Room(v) {
      AppAdded(v, kind, state, name, taskId, moduleId);
    } else {
      var r := SetupApp(v, kind, state, name, taskId, moduleId);
      AppSlotNext(v);
      assert v.apps[0].id == APP_BASE;
      var j :| 0 <= j < |v.tasks| && v.tasks[j].id == v.apps[0].mainTask && v.tasks[j].app == APP_BASE;
      assert r.tasks[j] == v.tasks[j];
      assert !AppUsed(r, APP_BASE);
    }
  }

  /** A full table: with room for one application, the second one breaks the graph. */
  lemma FullTable()
    ensures var v := SetupApp(Empty(1, 2), CORE, RUNNING, None, TASK_BASE, 0);
      && Numbered(v) && Graph(v) && !Room(v) && FreshTask(v, TASK_BASE + 1)
      && !Graph(SetupApp(v, CORE, RUNNING, None, TASK_BASE + 1, 0))
  {
    EmptyGraph(1, 2);
    AppAdded(Empty(1, 2), CORE, RUNNING, None, TASK_BASE, 0);
    var v := SetupApp(Empty(1, 2), CORE, RUNNING, None, TASK_BASE, 0);
    hide Graph; hide Numbered;
    GraphKeptIffRoom(v, CORE, RUNNING, None, TASK_BASE + 1, 0);
  }

  // ----------------------------------------------------------------- runs

  datatype Op =
    | AppOp(kind: nat, state: nat, name: Option<string>, taskId: nat, moduleId: nat)
    | ChildOp(parent: nat, name: Option<string>, taskId: nat)
    | StateOp(filter: Option<(nat, nat)>)

  predicate Permitted(v: Tables, op: Op) {
    Sized(v) &&
    match op
    case AppOp(_, _, _, taskId, _) => Room(v) && FreshTask(v, taskId)
    case ChildOp(parent, _, taskId) => parent < |v.apps| && v.apps[parent].id != UNUSED && FreshTask(v, taskId)
    case StateOp(_) => true
  }

  function Apply(v: Tables, op: Op): Tables
    requires Permitted(v, op)
  {
    match op
    case AppOp(kind, state, name, taskId, moduleId) => SetupApp(v, kind, state, name, taskId, moduleId)
    case ChildOp(parent, name, taskId) => SetupChild(v, parent, name, taskId)
    case StateOp(filter) => SetStates(v, filter)
  }

  predicate PermittedRun(v: Tables, ops: seq<Op>)
    decreases |ops|
  {
    ops != [] ==> Permitted(v, ops[0]) && PermittedRun(Apply(v, ops[0]), ops[1..])
  }

  function Run(v: Tables, ops: seq<Op>): Tables
    requires PermittedRun(v, ops)
    decreases |ops|
  {
    if ops == [] then v else Run(Apply(v, ops[0]), ops[1..])
  }

  /** The tables after a reset. */
  function Empty(apps: nat, tasks: nat): Tables {
    Tables(seq(apps, _ => AppRecord(UNUSED, 0, 0, "", UNUSED, 0)), seq(tasks, _ => UNUSED_TASK),
           APP_BASE, 0, 0, 0)
  }

  lemma EmptyGraph(apps: nat, tasks: nat)
    requires 0 < apps < UINT32_T && 0 < tasks < UINT32_T
    ensures Numbered(Empty(apps, tasks)) && Graph(Empty(apps, tasks))
  {
    var v := Empty(apps, tasks);
    CountNone(v.apps, OfKind(CORE));
    CountNone(v.apps, OfKind(EXTERNAL));
    CountNone(v.tasks, UsedTask());
  }

  lemma StepGraph(v: Tables, op: Op)
    requires Numbered(v) && Graph(v) && Permitted(v, op)
    ensures Numbered(Apply(v, op)) && Graph(Apply(v, op))
  {
    match op
    case AppOp(kind, state, name, taskId, moduleId) => AppAdded(v, kind, state, name, taskId, moduleId);
    case ChildOp(parent, name, taskId) => ChildAdded(v, parent, name, taskId);
    case StateOp(filter) => StatesSet(v, filter);
  }

  /** Whatever is set up within the size of the tables, the records form a consistent graph. */
  lemma {:induction false} RunGraph(v: Tables, ops: seq<Op>)
    requires Numbered(v) && Graph(v) && PermittedRun(v, ops)
    ensures Numbered(Run(v, ops)) && Graph(Run(v, ops))
    decreases |ops|
  {
    if ops != [] {
      StepGraph(v, ops[0]);
      RunGraph(Apply(v, ops[0]), ops[1..]);
    }
  }

  /** Children set up for the application in a slot. */
  function ChildrenAdded(ops: seq<Op>, slot: nat): nat {
    if ops == [] then 0 else (if ops[0].ChildOp? && ops[0].parent == slot then 1 else 0) + ChildrenAdded(ops[1..], slot)
  }

  function Children(v: Tables, slot: nat): nat
    requires slot < |v.apps|
  {
    Count(v.tasks, ChildOf(v.apps[slot].id, v.apps[slot].mainTask))
  }

  /** A new application has no children; each child is counted for its own parent and for no other. */
  lemma StepChildren(v: Tables, op: Op, slot: nat)
    requires Numbered(v) && Graph(v) && Permitted(v, op) && slot < |v.apps| && v.apps[slot].id != UNUSED
    ensures var r := Apply(v, op);
            && r.apps[slot].id == v.apps[slot].id
            && Children(r, slot) == Children(v, slot) + if op.ChildOp? && op.parent == slot then 1 else 0
  {
    var r := Apply(v, op);
    AppSlotNext(v);
    hide LogFile.Stored;
    hide TaskSlot;
    hide AppSlot;
    if !op.StateOp? {
      var j := TaskSlot(|v.tasks|, op.taskId);
      NotTheMain(v, op.taskId, slot);
      hide Numbered;
      hide Graph;
      CountUpdate(v.tasks, j, r.tasks[j], ChildOf(v.apps[slot].id, v.apps[slot].mainTask));
      if op.ChildOp? && op.parent != slot { DifferentIds(v, op.parent, slot); }
    }
  }

  lemma DifferentIds(v: Tables, i: nat, k: nat)
    requires Numbered(v) && i < |v.apps| && k < |v.apps| && i != k && v.apps[i].id != UNUSED && v.apps[k].id != UNUSED
    ensures v.apps[i].id != v.apps[k].id
  {
    hide TaskSlot;
  }

  /** A fresh task identifier is no application's main task. */
  lemma NotTheMain(v: Tables, taskId: nat, slot: nat)
    requires Numbered(v) && Links(v) && FreshTask(v, taskId) && slot < |v.apps| && v.apps[slot].id != UNUSED
    ensures v.apps[slot].mainTask != taskId
  {
    hide TaskSlot;
    var m :| 0 <= m < |v.tasks| && v.tasks[m].id == v.apps[slot].mainTask && v.tasks[m].app == v.apps[slot].id;
    assert TaskSlot(|v.tasks|, v.tasks[m].id) == m;
  }

  lemma NewAppChildless(v: Tables, op: Op)
    requires Numbered(v) && Graph(v) && Permitted(v, op) && op.AppOp?
    ensures Children(Apply(v, op), AppSlot(|v.apps|, v.lastAppId)) == 0
  {
    var r := Apply(v, op);
    AppSlotNext(v);
    var id := v.lastAppId;
    assert !AppUsed(v, id);
    forall j | 0 <= j < |r.tasks| ensures !ChildOf(id, op.taskId)(r.tasks[j]) {
      if j != TaskSlot(|v.tasks|, op.taskId) { assert r.tasks[j] == v.tasks[j]; }
    }
    CountNone(r.tasks, ChildOf(id, op.taskId));
  }

  /** The child count of an application grows by exactly the children set up for it. */
  lemma {:induction false} RunChildren(v: Tables, ops: seq<Op>, slot: nat)
    requires Numbered(v) && Graph(v) && PermittedRun(v, ops) && slot < |v.apps| && v.apps[slot].id != UNUSED
    ensures Run(v, ops).apps != [] && slot < |Run(v, ops).apps|
    ensures Children(Run(v, ops), slot) == Children(v, slot) + ChildrenAdded(ops, slot)
    decreases |ops|
  {
    if ops != [] {
      StepChildren(v, ops[0], slot);
      StepGraph(v, ops[0]);
      RunChildren(Apply(v, ops[0]), ops[1..], slot);
    }
  }

  /** Whatever is set up after a reset, within the size of the tables, the records form a consistent graph. */
  lemma ResetGraph(apps: nat, tasks: nat, ops: seq<Op>)
    requires 0 < apps < UINT32_T && 0 < tasks < UINT32_T && PermittedRun(Empty(apps, tasks), ops)
    ensures Graph(Run(Empty(apps, tasks), ops)) && Numbered(Run(Empty(apps, tasks), ops))
  {
    EmptyGraph(apps, tasks);
    RunGraph(Empty(apps, tasks), ops);
  }

  /** After a reset, every application has as many children as were set up for it. */
  lemma ResetChildren(apps: nat, tasks: nat, ops: seq<Op>, slot: nat)
    requires 0 < apps < UINT32_T && 0 < tasks < UINT32_T && PermittedRun(Empty(apps, tasks), ops)
    requires slot < |Run(Empty(apps, tasks), ops).apps| && Run(Empty(apps, tasks), ops).apps[slot].id != UNUSED
    ensures Children(Run(Empty(apps, tasks), ops), slot) == ChildrenAdded(ops, slot)
  {
    EmptyGraph(apps, tasks);
    SameSize(Empty(apps, tasks), ops);
    hide Run; hide Numbered; hide Graph;
    ChildrenSoFar(Empty(apps, tasks), ops, slot);
  }

  lemma {:induction false} SameSize(v: Tables, ops: seq<Op>)
    requires PermittedRun(v, ops)
    ensures |Run(v, ops).apps| == |v.apps|
    decreases |ops|
  {
    if ops != [] {
      SameSize(Apply(v, ops[0]), ops[1..]);
      hide TaskSlot; hide AppSlot;
    }
  }

  /** An application that a run sets up has exactly the children the run sets up for it. */
  lemma {:induction false} ChildrenSoFar(v: Tables, ops: seq<Op>, slot: nat)
    requires Numbered(v) && Graph(v) && PermittedRun(v, ops) && slot < |v.apps| && v.apps[slot].id == UNUSED
    ensures slot < |Run(v, ops).apps|
    ensures Run(v, ops).apps[slot].id != UNUSED ==> Children(Run(v, ops), slot) == ChildrenAdded(ops, slot)
    decreases |ops|
  {
    if ops != [] {
      var w := Apply(v, ops[0]);
      StepGraph(v, ops[0]);
      AppSlotNext(v);
      hide Numbered; hide Graph; hide TaskSlot; hide AppSlot;
      assert |w.apps| == |v.apps|;
      if w.apps[slot].id == UNUSED {
        ChildrenSoFar(w, ops[1..], slot);
      } else {
        NewAppChildless(v, ops[0]);
        RunChildren(w, ops[1..], slot);
      }
    }
  }

  /** What a state change makes of the state of an application of a kind. */
  function StateAfter(kind: nat, state: nat, ops: seq<Op>): nat
    decreases |ops|
  {
    if ops == [] then state else
    var next := match ops[0]
      case StateOp(None) => 3
      case StateOp(Some(filter)) => if filter.0 in {0, kind} then filter.1 else state
      case _ => state;
    StateAfter(kind, next, ops[1..])
  }

  /** The record of an application in use, but for its state. */
  predicate SameApp(a: AppRecord, b: AppRecord) { b == a.(state := b.state) }

  lemma StepKeepsApp(v: Tables, op: Op, slot: nat)
    requires Numbered(v) && Permitted(v, op) && slot < |v.apps| && v.apps[slot].id != UNUSED
    ensures var r := Apply(v, op);
            && slot < |r.apps| && SameApp(v.apps[slot], r.apps[slot])
            && r.apps[slot].state == StateAfter(v.apps[slot].kind, v.apps[slot].state, [op])
  {
    AppSlotNext(v);
    hide TaskSlot; hide AppSlot; hide LogFile.Stored;
    assert [op][1..] == [];
  }

  /** Over any run, an application keeps its record, and its state is the last that a change has given it. */
  lemma {:induction false} RunKeepsApp(v: Tables, ops: seq<Op>, slot: nat)
    requires Numbered(v) && Graph(v) && PermittedRun(v, ops) && slot < |v.apps| && v.apps[slot].id != UNUSED
    ensures slot < |Run(v, ops).apps| && SameApp(v.apps[slot], Run(v, ops).apps[slot])
    ensures Run(v, ops).apps[slot].state == StateAfter(v.apps[slot].kind, v.apps[slot].state, ops)
    decreases |ops|
  {
    if ops != [] {
      StepKeepsApp(v, ops[0], slot);
      StepGraph(v, ops[0]);
      StateOfFirst(v.apps[slot].kind, v.apps[slot].state, ops);
      hide Numbered; hide Graph; hide Apply; hide Permitted;
      RunKeepsApp(Apply(v, ops[0]), ops[1..], slot);
    }
  }

  /** A task in use keeps its record, too. */
  lemma {:induction false} RunKeepsTask(v: Tables, ops: seq<Op>, j: nat)
    requires PermittedRun(v, ops) && j < |v.tasks| && v.tasks[j].id != UNUSED
    ensures j < |Run(v, ops).tasks| && Run(v, ops).tasks[j] == v.tasks[j]
    decreases |ops|
  {
    if ops != [] {
      hide TaskSlot; hide AppSlot; hide LogFile.Stored;
      RunKeepsTask(Apply(v, ops[0]), ops[1..], j);
    }
  }

  lemma StateOfFirst(kind: nat, state: nat, ops: seq<Op>)
    requires ops != []
    ensures StateAfter(kind, state, ops) == StateAfter(kind, StateAfter(kind, state, [ops[0]]), ops[1..])
  {
    assert [ops[0]][1..] == [];
  }

  /** What a setup leaves in the new records: what it was given, names cut to 19 characters, or as they were. */
  lemma SetupRecords(v: Tables, kind: nat, state: nat, name: Option<string>, taskId: nat, moduleId: nat)
    requires Numbered(v) && Room(v)
    ensures var r := SetupApp(v, kind, state, name, taskId, moduleId);
            var i, j := v.lastAppId - APP_BASE, TaskSlot(|v.tasks|, taskId);
      && r.apps[i].id == v.lastAppId && r.apps[i].kind == kind && r.apps[i].state == state
      && r.apps[i].mainTask == taskId && r.tasks[j].id == taskId && r.tasks[j].app == v.lastAppId
      && r.apps[i].moduleId == (if kind == 2 then moduleId else v.apps[i].moduleId)
      && (name.None? ==> r.apps[i].name == v.apps[i].name && r.tasks[j].name == v.tasks[j].name)
      && (name.Some? ==> NameIn(name.value, r.apps[i].name) && NameIn(name.value, r.tasks[j].name))
      && (forall k :: 0 <= k < |v.apps| && k != i ==> r.apps[k] == v.apps[k])
      && (forall k :: 0 <= k < |v.tasks| && k != j ==> r.tasks[k] == v.tasks[k])
  {
    AppSlotNext(v);
    hide TaskSlot; hide AppSlot;
  }

  /** A child's record is its own, with its parent's identifier; nothing else of the tables changes. */
  lemma ChildRecord(v: Tables, parent: nat, name: Option<string>, taskId: nat)
    requires Sized(v) && parent < |v.apps|
    ensures var r, j := SetupChild(v, parent, name, taskId), TaskSlot(|v.tasks|, taskId);
      && r.apps == v.apps && r.tasks[j].id == taskId && r.tasks[j].app == v.apps[parent].id
      && (name.None? ==> r.tasks[j].name == v.tasks[j].name)
      && (name.Some? ==> NameIn(name.value, r.tasks[j].name))
      && (forall k :: 0 <= k < |v.tasks| && k != j ==> r.tasks[k] == v.tasks[k])
  {
    hide TaskSlot;
  }

  predicate NameIn(name: string, stored: string) {
    stored <= name && |stored| == if |name| <= 19 then |name| else 19
  }

  /** The record of an application's main task, the last one if there were several. */
  function MainTask(tasks: seq<TaskRecord>, app: nat, mainTask: nat): (r: Option<TaskRecord>)
    ensures r.Some? ==> r.value in tasks && r.value.id == mainTask != UNUSED && r.value.app == app
  {
    if tasks == [] then None else
    var t := tasks[|tasks| - 1];
    if t.id != UNUSED && t.app == app && t.id == mainTask then Some(t)
    else MainTask(tasks[..|tasks| - 1], app, mainTask)
  }

  lemma {:induction false} MainTaskFound(tasks: seq<TaskRecord>, j: nat, app: nat, mainTask: nat)
    requires j < |tasks| && tasks[j].id == mainTask != UNUSED && tasks[j].app == app
    requires forall k :: 0 <= k < |tasks| && tasks[k].id == mainTask ==> k == j
    ensures MainTask(tasks, app, mainTask) == Some(tasks[j])
  {
    if j < |tasks| - 1 {
      assert tasks[..|tasks| - 1][j] == tasks[j];
      MainTaskFound(tasks[..|tasks| - 1], j, app, mainTask);
    }
  }

  /** In a consistent graph the query reports the one record of the main task. */
  lemma MainTaskReported(v: Tables, slot: nat)
    requires Graph(v) && slot < |v.apps| && v.apps[slot].id != UNUSED
    ensures exists j :: 0 <= j < |v.tasks| && v.tasks[j].id == v.apps[slot].mainTask
              && MainTask(v.tasks, v.apps[slot].id, v.apps[slot].mainTask) == Some(v.tasks[j])
  {
    var a := v.apps[slot];
    var j :| 0 <= j < |v.tasks| && v.tasks[j].id == a.mainTask && v.tasks[j].app == a.id;
    forall k | 0 <= k < |v.tasks| && v.tasks[k].id == a.mainTask ensures k == j {}
    MainTaskFound(v.tasks, j, a.id, a.mainTask);
  }

  // ----------------------------------------------------------------- the tables in place

  class Global {
    const apps: array<AppRecord>
    const tasks: array<TaskRecord>
    var lastAppId: nat
    var core: uint32
    var external: uint32
    var registered: uint32

    ghost predicate Valid() { 0 < apps.Length < UINT32_T && 0 < tasks.Length < UINT32_T }

    ghost function View(): (v: Tables)
      reads this, apps, tasks
    {
      Tables(apps[..], tasks[..], lastAppId, core, external, registered)
    }

    constructor Reset(maxApps: nat, maxTasks: nat)
      requires 0 < maxApps < UINT32_T && 0 < maxTasks < UINT32_T
      ensures Valid() && fresh(apps) && fresh(tasks) && View() == Empty(maxApps, maxTasks)
    {
      apps := new AppRecord[maxApps](_ => AppRecord(UNUSED, 0, 0, "", UNUSED, 0));
      tasks := new TaskRecord[maxTasks](_ => UNUSED_TASK);
      lastAppId, core, external, registered := APP_BASE, 0, 0, 0;
      new;
      assert apps[..] == Empty(maxApps, maxTasks).apps;
      assert tasks[..] == Empty(maxApps, maxTasks).tasks;
    }

    method SetupSingleAppId(kind: nat, state: nat, name: Option<string>, taskId: nat, moduleId: nat)
      returns (app: nat, task: nat)
      requires Valid()
      modifies this, apps, tasks
      ensures View() == SetupApp(old(View()), kind, state, name, taskId, moduleId)
      ensures app == AppSlot(apps.Length, old(lastAppId)) && task == TaskSlot(tasks.Length, taskId)
    {
      hide LogFile.Stored;
      hide TaskSlot;
      hide AppSlot;
      hide ToU32;
      var id := lastAppId;
      lastAppId := id + 1;
      task := TaskSlot(tasks.Length, taskId);
      app := AppSlot(apps.Length, id);
      tasks[task] := tasks[task].(id := taskId);
      apps[app] := apps[app].(id := id);
      tasks[task] := tasks[task].(app := apps[app].id);
      apps[app] := apps[app].(mainTask := tasks[task].id, state := state, kind := kind);
      if name.Some? {
        apps[app] := apps[app].(name := LogFile.Stored(name.value, NAME_LEN));
        tasks[task] := tasks[task].(name := LogFile.Stored(name.value, NAME_LEN));
      }
      if kind == CORE { core := ToU32(core + 1); }
      if kind == EXTERNAL {
        external := ToU32(external + 1);
        apps[app] := apps[app].(moduleId := moduleId);
      }
      registered := ToU32(registered + 1);
      ghost var r := SetupApp(old(View()), kind, state, name, taskId, moduleId);
      assert apps[app] == r.apps[app] && tasks[task] == r.tasks[task];
      assert apps[..] == r.apps;
      assert tasks[..] == r.tasks;
    }

    method SetupChildTaskId(parent: nat, name: Option<string>, taskId: nat) returns (task: nat)
      requires Valid() && parent < apps.Length
      modifies this`registered, tasks
      ensures View() == SetupChild(old(View()), parent, name, taskId) && task == TaskSlot(tasks.Length, taskId)
    {
      var id := apps[parent].id;
      task := TaskSlot(tasks.Length, taskId);
      tasks[task] := tasks[task].(id := taskId);
      tasks[task] := tasks[task].(app := id);
      if name.Some? { tasks[task] := tasks[task].(name := LogFile.Stored(name.value, NAME_LEN)); }
      registered := ToU32(registered + 1);
    }

    method SetAppStateHook(filter: Option<(nat, nat)>)
      modifies apps
      ensures View() == SetStates(old(View()), filter)
    {
      for i := 0 to apps.Length
        invariant forall k :: 0 <= k < apps.Length ==>
          apps[k] == if k < i then Hooked(old(apps[k]), filter) else old(apps[k])
      {
        if apps[i].id != UNUSED {
          if filter.None? {
            apps[i] := apps[i].(state := RUNNING);
          } else if filter.value.0 == 0 || apps[i].kind == filter.value.0 {
            apps[i] := apps[i].(state := filter.value.1);
          }
        }
      }
      assert apps[..] == SetStates(old(View()), filter).apps;
    }

    /** The loop that counts an application's children and reports its main task; `info` starts out cleared. */
    method NumOfChildTasks(appId: nat, mainTask: nat) returns (n: nat, info: TaskInfo)
      ensures n == Count(tasks[..], ChildOf(appId, mainTask))
      ensures info == match MainTask(tasks[..], appId, mainTask)
                      case None => TaskInfo("", 0, 0, 0)
                      case Some(t) => TaskInfo(LogFile.Stored(t.name, NAME_LEN), t.executions, t.stackSize, t.priority)
    {
      n, info := 0, TaskInfo("", 0, 0, 0);
      for i := 0 to tasks.Length
        invariant n == Count(tasks[..i], ChildOf(appId, mainTask))
        invariant info == match MainTask(tasks[..i], appId, mainTask)
                          case None => TaskInfo("", 0, 0, 0)
                          case Some(t) =>
                            TaskInfo(LogFile.Stored(t.name, NAME_LEN), t.executions, t.stackSize, t.priority)
      {
        assert tasks[..i + 1][..i] == tasks[..i];
        if tasks[i].id != UNUSED && tasks[i].app == appId {
          if tasks[i].id == mainTask {
            info := info.(executions := tasks[i].executions);
            info := info.(name := LogFile.Stored(tasks[i].name, NAME_LEN));
            info := info.(stackSize := tasks[i].stackSize, priority := tasks[i].priority);
          } else {
            n := n + 1;
          }
        }
      }
      assert tasks[..tasks.Length] == tasks[..];
    }
  }
}
