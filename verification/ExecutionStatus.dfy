/** Live step statuses of a run: server events, batched on their way to the
    screen, against the same events applied at once. */
module ExecutionStatus {
  import opened Batching
  import opened Options

  datatype StepStatus = Idle | Running | Passed | Failed | Error | Skipped

  datatype Phase = PendingRun | RunningRun | CompletedRun

  /** A parsed server event; "" stands for an absent type, category or status. */
  datatype ExecutionEvent = ExecutionEvent(typ: string, category: string, stepId: Option<string>, status: string,
                                           newStatus: string, name: Option<string>)

  /** What the composable shows. */
  datatype Screen = Screen(stepStatuses: map<string, StepStatus>, executionStatus: Option<Phase>, completedSteps: nat,
                           totalSteps: int, latestAlarm: Option<ExecutionEvent>,
                           latestMeasurements: map<string, ExecutionEvent>)

  /** What happens to it: a server event, a change of the watched run id, the
      two exported actions, the component going away, the pending callback of
      the buffer running. */
  datatype Input =
    | Message(event: ExecutionEvent, now: real)
    | RunChange(newId: string, oldId: string)
    | Reset
    | SetTotal(count: int)
    | Unmount
    | Tick(now: real)

  const CONFIG := Config(50.0, 200)

  // ----- reading an event -----

  const STEP_EVENT_TYPES := ["STEP_STARTED", "STEP_COMPLETED", "STEP_FAILED", "STEP_SKIPPED", "STEP_STATUS_CHANGED",
                             "LOOP_ITERATION_STARTED", "LOOP_ITERATION_COMPLETED"]

  const ALARM_EVENT_TYPES := ["STEP_TIMEOUT", "CONDITION_TIMEOUT", "RESOURCE_TIMEOUT", "DEADLOCK_DETECTED",
                              "WORKER_EXHAUSTED"]

  function InferCategory(typ: string): string {
    if typ == "" then "event"
    else if typ in ALARM_EVENT_TYPES then "alarm"
    else if typ == "MEASUREMENT_RECORDED" || typ == "VARIABLE_CHANGED" then "measurement"
    else "event"
  }

  function Category(e: ExecutionEvent): string {
    if e.category != "" then e.category else InferCategory(e.typ)
  }

  /** Lower case, as far as the words compared with are concerned: the only
      characters that become one of their letters are A to Z and the Kelvin sign. */
  function Lower(c: char): char {
    if 'A' <= c <= 'Z' then c - 'A' + 'a' else if c == '\U{212A}' then 'k' else c
  }

  function MapBackendStatus(status: string): StepStatus {
    var normalized := seq(|status|, i requires 0 <= i < |status| => Lower(status[i]));
    if normalized in ["passed", "success", "completed"] then Passed
    else if normalized == "failed" then Failed
    else if normalized == "error" then Error
    else if normalized in ["skipped", "skip"] then Skipped
    else if normalized in ["idle", "pending"] then Idle
    else Running
  }

  predicate HasStep(e: ExecutionEvent) {
    e.stepId.Some? && e.stepId.value != ""
  }

  predicate IsStepEvent(e: ExecutionEvent) {
    e.typ in STEP_EVENT_TYPES && HasStep(e)
  }

  predicate Completes(typ: string) {
    typ in ["STEP_COMPLETED", "STEP_FAILED", "STEP_SKIPPED", "LOOP_ITERATION_COMPLETED"]
  }

  function StatusOf(e: ExecutionEvent): StepStatus {
    match e.typ
    case "STEP_COMPLETED" => MapBackendStatus(e.status)
    case "STEP_FAILED" => Failed
    case "STEP_SKIPPED" => Skipped
    case "STEP_STATUS_CHANGED" => MapBackendStatus(if e.newStatus != "" then e.newStatus else e.status)
    case "LOOP_ITERATION_COMPLETED" => MapBackendStatus(e.status)
    case _ => Running
  }

  /** The one step status an event asks for, if it asks for one. */
  function Asked(e: ExecutionEvent): Option<(string, StepStatus)> {
    if Category(e) == "event" && IsStepEvent(e) then Some((e.stepId.value, StatusOf(e)))
    else if Category(e) == "alarm" && HasStep(e) && e.typ == "STEP_TIMEOUT" then Some((e.stepId.value, Error))
    else None
  }

  /** Inputs that start with a clean screen. */
  predicate Wipes(i: Input) {
    match i
    case Message(e, _) => Category(e) == "event" && e.typ == "EXECUTION_STARTED"
    case RunChange(newId, oldId) => newId != "" && newId != oldId
    case Reset => true
    case _ => false
  }

  function Cleared(phase: Option<Phase>): Screen {
    Screen(map[], phase, 0, 0, None, map[])
  }

  function MeasurementName(e: ExecutionEvent): string {
    if e.name.Some? then e.name.value else if e.stepId.Some? then e.stepId.value else "unknown"
  }

  /** Everything an event does besides setting a step status. */
  function Noted(s: Screen, e: ExecutionEvent): Screen {
    if Category(e) == "event" then
      if e.typ == "EXECUTION_STARTED" then Cleared(Some(RunningRun))
      else if e.typ == "EXECUTION_COMPLETED" then s.(executionStatus := Some(CompletedRun))
      else if e.typ == "EXECUTION_PAUSED" then s.(executionStatus := Some(PendingRun))
      else if IsStepEvent(e) && Completes(e.typ) then s.(completedSteps := s.completedSteps + 1)
      else s
    else if Category(e) == "measurement" then
      s.(latestMeasurements := s.latestMeasurements[MeasurementName(e) := e])
    else if Category(e) == "alarm" then s.(latestAlarm := Some(e))
    else s
  }

  // ----- statuses applied at once -----

  /** The screen without a buffer; `live` until the component goes away. */
  datatype Direct = Direct(screen: Screen, live: bool)

  function Set(d: Direct, a: Option<(string, StepStatus)>): Direct {
    if a.Some? && d.live
    then d.(screen := d.screen.(stepStatuses := d.screen.stepStatuses[a.value.0 := a.value.1]))
    else d
  }

  function DirectStep(d: Direct, i: Input): Direct {
    match i
    case Message(e, _) => Set(d.(screen := Noted(d.screen, e)), Asked(e))
    case RunChange(newId, oldId) =>
      if newId == "" then d.(screen := d.screen.(executionStatus := None))
      else if newId != oldId then d.(screen := Cleared(Some(PendingRun)))
      else d
    case Reset => d.(screen := Cleared(None))
    case SetTotal(count) => d.(screen := d.screen.(totalSteps := count))
    case Unmount => d.(live := false)
    case Tick(_) => d
  }

  function DirectRun(d: Direct, inputs: seq<Input>): Direct
    decreases |inputs|
  {
    if inputs == [] then d else DirectRun(DirectStep(d, inputs[0]), inputs[1..])
  }

  // ----- statuses through the buffer -----

  datatype Tracker = Tracker(screen: Screen, buffer: State<StepStatus>)

  const BLANK := Screen(map[], None, 0, 0, None, map[])

  function Start(now: real): Tracker {
    Tracker(BLANK, Initial(now))
  }

  /** The flush callback: every entry with a status is written. */
  function Written(statuses: map<string, StepStatus>, updates: Updates<StepStatus>): map<string, StepStatus> {
    statuses + map id | id in updates && "status" in updates[id] :: updates[id]["status"]
  }

  function Feed(t: Tracker, e: Event<StepStatus>): Tracker {
    var o := Batching.Step(CONFIG, t.buffer, e);
    Tracker(if o.delivered.Some? then t.screen.(stepStatuses := Written(t.screen.stepStatuses, o.delivered.value))
            else t.screen, o.state)
  }

  function Ask(t: Tracker, a: Option<(string, StepStatus)>, now: real): Tracker {
    if a.Some? then Feed(t, Push(a.value.0, map["status" := a.value.1], now)) else t
  }

  /** Starting over flushes first and clears then. */
  function Track(t: Tracker, i: Input): Tracker {
    var f := if Wipes(i) || (i.RunChange? && i.newId == "") then Feed(t, Flush) else t;
    match i
    case Message(e, now) => Ask(f.(screen := Noted(f.screen, e)), Asked(e), now)
    case RunChange(newId, oldId) =>
      if newId == "" then f.(screen := f.screen.(executionStatus := None))
      else if newId != oldId then f.(screen := Cleared(Some(PendingRun)))
      else f
    case Reset => f.(screen := Cleared(None))
    case SetTotal(count) => f.(screen := f.screen.(totalSteps := count))
    case Unmount => Feed(f, Destroy)
    case Tick(now) => Feed(f, Fire(now))
  }

  function TrackAll(t: Tracker, inputs: seq<Input>): Tracker
    decreases |inputs|
  {
    if inputs == [] then t else TrackAll(Track(t, inputs[0]), inputs[1..])
  }

  // ----- the two agree -----

  /** The statuses overlaid with the pending buffer. */
  ghost function Seen(t: Tracker): map<string, StepStatus> {
    Written(t.screen.stepStatuses, t.buffer.buffer)
  }

  ghost function Abstract(t: Tracker): Direct {
    Direct(t.screen.(stepStatuses := Seen(t)), !t.buffer.destroyed)
  }

  lemma WrittenTwice(statuses: map<string, StepStatus>, b: Updates<StepStatus>)
    ensures Written(Written(statuses, b), map[]) == Written(statuses, b)
    ensures Written(statuses, map[]) == statuses
  {
  }

  lemma WrittenMerged(statuses: map<string, StepStatus>, b: Updates<StepStatus>, id: string, x: StepStatus)
    ensures Written(statuses, Merged(b, id, map["status" := x])) == Written(statuses, b)[id := x]
  {
    var m := Merged(b, id, map["status" := x]);
    assert "status" in m[id] && m[id]["status"] == x;
    var l, r := Written(statuses, m), Written(statuses, b)[id := x];
    forall k ensures k in l <==> k in r {
      if k != id { assert k in m <==> k in b; }
    }
    forall k | k in l ensures l[k] == r[k] {
      if k != id { assert k in m <==> k in b; }
    }
  }

  lemma WrittenMore(statuses: map<string, StepStatus>, updates: Updates<StepStatus>, left: set<string>, id: string)
    requires id in left && id in updates
    ensures Written(statuses, updates - (left - {id}))
         == if "status" in updates[id] then Written(statuses, updates - left)[id := updates[id]["status"]]
            else Written(statuses, updates - left)
  {
    var m, b := updates - (left - {id}), updates - left;
    assert m == b[id := updates[id]];
    forall k ensures k in m && k != id <==> k in b {
    }
  }

  /** Flushing, firing and destroying change nothing that is seen. */
  lemma FeedOther(t: Tracker, e: Event<StepStatus>)
    requires !e.Push?
    ensures Seen(Feed(t, e)) == Seen(t)
    ensures Feed(t, e).screen == t.screen.(stepStatuses := Feed(t, e).screen.stepStatuses)
    ensures Feed(t, e).buffer.destroyed == (t.buffer.destroyed || e.Destroy?)
  {
    AllOrNothing(CONFIG, t.buffer, e);
    WrittenTwice(t.screen.stepStatuses, t.buffer.buffer);
  }

  lemma AskAgrees(t: Tracker, a: Option<(string, StepStatus)>, now: real)
    ensures Abstract(Ask(t, a, now)) == Set(Abstract(t), a)
  {
    if a.Some? && !t.buffer.destroyed {
      var push: Event<StepStatus> := Push(a.value.0, map["status" := a.value.1], now);
      AllOrNothing(CONFIG, t.buffer, push);
      WrittenMerged(t.screen.stepStatuses, t.buffer.buffer, a.value.0, a.value.1);
      WrittenTwice(t.screen.stepStatuses, Merged(t.buffer.buffer, a.value.0, push.data));
    }
  }

  lemma FlushEmpties(t: Tracker)
    requires Consistent(CONFIG, t.buffer)
    ensures Feed(t, Flush).buffer.buffer == map[]
  {
  }

  lemma LifecycleIsNoStep(typ: string)
    requires typ in ["EXECUTION_STARTED", "EXECUTION_COMPLETED", "EXECUTION_PAUSED"]
    ensures typ !in STEP_EVENT_TYPES
  {
  }

  lemma StartAsksNothing(e: ExecutionEvent)
    requires Category(e) == "event" && e.typ == "EXECUTION_STARTED"
    ensures Asked(e) == None
  {
    LifecycleIsNoStep(e.typ);
  }

  /** An input that wipes leaves nothing shown and nothing pending. */
  lemma WipedClean(t: Tracker, i: Input)
    requires Consistent(CONFIG, t.buffer) && Wipes(i)
    ensures Track(t, i).screen.stepStatuses == map[] && Track(t, i).buffer.buffer == map[]
    ensures Track(t, i).buffer == Feed(t, Flush).buffer
  {
    FlushEmpties(t);
    if i.Message? { StartAsksNothing(i.event); }
  }

  lemma WipeAgrees(t: Tracker, i: Input)
    requires Consistent(CONFIG, t.buffer) && Wipes(i)
    ensures Abstract(Track(t, i)) == DirectStep(Abstract(t), i)
  {
    WipedClean(t, i);
    FeedOther(t, Flush);
    WrittenTwice(map[], map[]);
    if i.Message? { StartAsksNothing(i.event); }
  }

  lemma MessageAgrees(t: Tracker, e: ExecutionEvent, now: real)
    requires !Wipes(Message(e, now))
    ensures Abstract(Track(t, Message(e, now))) == DirectStep(Abstract(t), Message(e, now))
  {
    var n := t.(screen := Noted(t.screen, e));
    assert Abstract(n) == Abstract(t).(screen := Noted(Abstract(t).screen, e));
    AskAgrees(n, Asked(e), now);
  }

  lemma StepAgrees(t: Tracker, i: Input)
    requires Consistent(CONFIG, t.buffer)
    ensures Abstract(Track(t, i)) == DirectStep(Abstract(t), i)
  {
    if Wipes(i) {
      WipeAgrees(t, i);
    } else {
      match i {
        case Message(e, now) => MessageAgrees(t, e, now);
        case RunChange(newId, oldId) => FeedOther(t, Flush);
        case Unmount => FeedOther(t, Destroy);
        case Tick(now) => FeedOther(t, Fire(now));
        case _ =>
      }
    }
  }

  lemma StepConsistent(t: Tracker, i: Input)
    requires Consistent(CONFIG, t.buffer)
    ensures Consistent(CONFIG, Track(t, i).buffer)
  {
    StepKeeps(CONFIG, t.buffer, Flush);
    var f := if Wipes(i) || (i.RunChange? && i.newId == "") then Feed(t, Flush) else t;
    match i {
      case Message(e, now) =>
        if Asked(e).Some? {
          StepKeeps(CONFIG, f.buffer, Push(Asked(e).value.0, map["status" := Asked(e).value.1], now));
        }
      case Unmount => StepKeeps(CONFIG, f.buffer, Destroy);
      case Tick(now) => StepKeeps(CONFIG, f.buffer, Fire(now));
      case _ =>
    }
  }

  /** For every sequence of inputs, with flushes anywhere among them: the screen
      overlaid with the pending buffer is the screen without a buffer. */
  lemma {:induction false} BufferedIsDirect(t: Tracker, inputs: seq<Input>)
    requires Consistent(CONFIG, t.buffer)
    ensures Consistent(CONFIG, TrackAll(t, inputs).buffer)
    ensures Abstract(TrackAll(t, inputs)) == DirectRun(Abstract(t), inputs)
    decreases |inputs|
  {
    if inputs != [] {
      StepConsistent(t, inputs[0]);
      StepAgrees(t, inputs[0]);
      BufferedIsDirect(Track(t, inputs[0]), inputs[1..]);
    }
  }

  /** So whenever nothing is pending, the two screens are the same. */
  lemma SameWhenFlushed(now: real, inputs: seq<Input>)
    requires TrackAll(Start(now), inputs).buffer.buffer == map[]
    ensures TrackAll(Start(now), inputs).screen == DirectRun(Direct(BLANK, true), inputs).screen
  {
    BufferedIsDirect(Start(now), inputs);
    WrittenTwice(map[], map[]);
    WrittenTwice(TrackAll(Start(now), inputs).screen.stepStatuses, map[]);
  }

  /** That is so three callbacks after any input at the latest. */
  lemma SettlesInThreeTicks(now: real, inputs: seq<Input>, a: real, b: real, c: real)
    ensures var t := TrackAll(Start(now), inputs);
      var u := Track(Track(Track(t, Tick(a)), Tick(b)), Tick(c));
      u.buffer.buffer == map[] && u.screen == DirectRun(Direct(BLANK, true), inputs).screen
  {
    var t := TrackAll(Start(now), inputs);
    BufferedIsDirect(Start(now), inputs);
    WrittenTwice(map[], map[]);
    var t1 := TickAdvances(t, a);
    var t2 := TickAdvances(t1, b);
    var u := TickAdvances(t2, c);
    WrittenTwice(u.screen.stepStatuses, map[]);
  }

  /** A callback brings the flush one stage nearer and changes nothing seen. */
  lemma TickAdvances(t: Tracker, now: real) returns (u: Tracker)
    requires Consistent(CONFIG, t.buffer)
    ensures u == Track(t, Tick(now)) && Consistent(CONFIG, u.buffer) && Abstract(u) == Abstract(t)
    ensures Stages(u.buffer.timer) == 0 || Stages(u.buffer.timer) < Stages(t.buffer.timer)
  {
    u := Track(t, Tick(now));
    StepConsistent(t, Tick(now));
    StepAgrees(t, Tick(now));
  }

  /** No status of an earlier run, shown or pending, survives a start, a change
      to another run or a reset. */
  lemma NothingStale(now: real, inputs: seq<Input>, i: Input)
    requires Wipes(i)
    ensures var t := Track(TrackAll(Start(now), inputs), i); t.screen.stepStatuses == map[] && t.buffer.buffer == map[]
  {
    BufferedIsDirect(Start(now), inputs);
    WipedClean(TrackAll(Start(now), inputs), i);
  }

  // ----- the composable -----

  class Composable {
    const batchBuffer: BatchBuffer<StepStatus>
    var stepStatuses: map<string, StepStatus>
    var executionStatus: Option<Phase>
    var completedSteps: nat
    var totalSteps: int
    var latestAlarm: Option<ExecutionEvent>
    var latestMeasurements: map<string, ExecutionEvent>

    ghost predicate Valid() {
      batchBuffer.config == CONFIG
    }

    ghost function View(): Tracker
      reads this, batchBuffer
    {
      Tracker(Screen(stepStatuses, executionStatus, completedSteps, totalSteps, latestAlarm, latestMeasurements),
              batchBuffer.View())
    }

    constructor (now: real)
      ensures Valid() && fresh(batchBuffer) && View() == Start(now)
    {
      batchBuffer := new BatchBuffer(now, CONFIG);
      stepStatuses, executionStatus, completedSteps, totalSteps := map[], None, 0, 0;
      latestAlarm, latestMeasurements := None, map[];
    }

    /** The callback given to the buffer. */
    method OnFlush(updates: Updates<StepStatus>)
      modifies this`stepStatuses
      ensures stepStatuses == Written(old(stepStatuses), updates)
    {
      var left := updates.Keys;
      assert updates - left == map[];
      while left != {}
        invariant left <= updates.Keys
        invariant stepStatuses == Written(old(stepStatuses), updates - left)
      {
        var stepId :| stepId in left;
        WrittenMore(old(stepStatuses), updates, left, stepId);
        left := left - {stepId};
        var data := updates[stepId];
        if "status" in data {
          stepStatuses := stepStatuses[stepId := data["status"]];
        }
      }
      assert updates - left == updates;
    }

    method Deliver(delivered: Option<Updates<StepStatus>>)
      modifies this`stepStatuses
      ensures stepStatuses == if delivered.Some? then Written(old(stepStatuses), delivered.value) else old(stepStatuses)
    {
      if delivered.Some? {
        OnFlush(delivered.value);
      }
    }

    method PushStatus(stepId: string, status: StepStatus, now: real)
      requires Valid()
      modifies this`stepStatuses, batchBuffer
      ensures View() == Ask(old(View()), Some((stepId, status)), now)
    {
      var delivered := batchBuffer.Push(stepId, map["status" := status], now);
      Deliver(delivered);
    }

    method FlushBuffer()
      requires Valid()
      modifies this`stepStatuses, batchBuffer
      ensures View() == Feed(old(View()), Flush)
    {
      var delivered := batchBuffer.Flush();
      Deliver(delivered);
    }

    /** Pending updates are flushed before the state is cleared. */
    method StartOver(phase: Option<Phase>)
      requires Valid()
      modifies this, batchBuffer
      ensures View() == Feed(old(View()), Flush).(screen := Cleared(phase))
    {
      FlushBuffer();
      stepStatuses := map[];
      executionStatus := phase;
      completedSteps := 0;
      totalSteps := 0;
      latestAlarm := None;
      latestMeasurements := map[];
    }

    method OnMessage(event: ExecutionEvent, now: real)
      requires Valid()
      modifies this, batchBuffer
      ensures View() == Track(old(View()), Message(event, now))
    {
      var category := if event.category != "" then event.category else InferCategory(event.typ);
      if category == "event" {
        HandleEventCategory(event, now);
      }
      if category == "measurement" {
        HandleMeasurementCategory(event);
      }
      if category == "alarm" {
        HandleAlarmCategory(event, now);
      }
    }

    method HandleEventCategory(event: ExecutionEvent, now: real)
      requires Valid()
      modifies this, batchBuffer
      ensures Category(event) == "event" ==> View() == Track(old(View()), Message(event, now))
    {
      if event.typ == "EXECUTION_STARTED" {
        StartOver(Some(RunningRun));
      }
      if event.typ == "EXECUTION_COMPLETED" {
        executionStatus := Some(CompletedRun);
      }
      if event.typ == "EXECUTION_PAUSED" {
        executionStatus := Some(PendingRun);
      }
      if event.typ in ["EXECUTION_STARTED", "EXECUTION_COMPLETED", "EXECUTION_PAUSED"] { LifecycleIsNoStep(event.typ); }
      if event.typ in STEP_EVENT_TYPES && HasStep(event) {
        var stepStatus := ReadStepEvent(event);
        PushStatus(event.stepId.value, stepStatus, now);
      }
    }

    /** The part of the handler that finds the status and counts completions. */
    method ReadStepEvent(event: ExecutionEvent) returns (stepStatus: StepStatus)
      modifies this`completedSteps
      ensures stepStatus == StatusOf(event)
      ensures completedSteps == old(completedSteps) + if Completes(event.typ) then 1 else 0
    {
      stepStatus := Running;
      if event.typ == "STEP_STARTED" || event.typ == "LOOP_ITERATION_STARTED" {
        stepStatus := Running;
      } else if event.typ == "STEP_COMPLETED" {
        stepStatus := MapBackendStatus(event.status);
        completedSteps := completedSteps + 1;
      } else if event.typ == "STEP_FAILED" {
        stepStatus := Failed;
        completedSteps := completedSteps + 1;
      } else if event.typ == "STEP_SKIPPED" {
        stepStatus := Skipped;
        completedSteps := completedSteps + 1;
      } else if event.typ == "STEP_STATUS_CHANGED" {
        stepStatus := MapBackendStatus(if event.newStatus != "" then event.newStatus else event.status);
      } else if event.typ == "LOOP_ITERATION_COMPLETED" {
        stepStatus := MapBackendStatus(event.status);
        completedSteps := completedSteps + 1;
      }
    }

    method HandleMeasurementCategory(event: ExecutionEvent)
      modifies this`latestMeasurements
      ensures latestMeasurements == old(latestMeasurements)[MeasurementName(event) := event]
    {
      latestMeasurements := latestMeasurements[MeasurementName(event) := event];
    }

    method HandleAlarmCategory(event: ExecutionEvent, now: real)
      requires Valid()
      modifies this, batchBuffer
      ensures Category(event) == "alarm" ==> View() == Track(old(View()), Message(event, now))
    {
      latestAlarm := Some(event);
      if HasStep(event) {
        if event.typ == "STEP_TIMEOUT" {
          PushStatus(event.stepId.value, Error, now);
        }
      }
    }

    method OnRunChange(newId: string, oldId: string)
      requires Valid()
      modifies this, batchBuffer
      ensures View() == Track(old(View()), RunChange(newId, oldId))
    {
      if newId != "" && newId != oldId {
        StartOver(Some(PendingRun));
      }
      if newId == "" {
        FlushBuffer();
        executionStatus := None;
      }
    }

    method SetTotalSteps(count: int)
      modifies this`totalSteps
      ensures View() == Track(old(View()), SetTotal(count))
    {
      totalSteps := count;
    }

    method ResetAll()
      requires Valid()
      modifies this, batchBuffer
      ensures View() == Track(old(View()), Reset)
    {
      StartOver(None);
    }

    method OnBeforeUnmount()
      requires Valid()
      modifies this, batchBuffer
      ensures View() == Track(old(View()), Unmount)
    {
      var delivered := batchBuffer.DestroyBuffer();
      Deliver(delivered);
    }

    /** The buffer's pending callback runs. */
    method OnTick(now: real)
      requires Valid()
      modifies this, batchBuffer
      ensures View() == Track(old(View()), Tick(now))
    {
      var delivered := batchBuffer.FireTimer(now);
      Deliver(delivered);
    }
  }
}
