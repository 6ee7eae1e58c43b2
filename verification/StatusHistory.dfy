/** What the screen of a run shows, told from the history of its inputs: which
    event set each status, counter and field that is shown. */
module StatusHistory {
  import opened Batching
  import opened ExecutionStatus
  import opened Options

  // ----- the words of the server -----

  /** c is the letter l in either case; the Kelvin sign is a k. */
  ghost predicate SpellsLetter(c: char, l: char) {
    c == l || ('a' <= l <= 'z' && c as int + 32 == l as int) || (l == 'k' && c == '\U{212A}')
  }

  ghost predicate Spells(s: string, word: string) {
    |s| == |word| && forall i :: 0 <= i < |s| ==> SpellsLetter(s[i], word[i])
  }

  /** The status a word stands for; Running if it stands for no other. */
  ghost predicate Means(word: string, x: StepStatus) {
    && (x == Passed <==> Spells(word, "passed") || Spells(word, "success") || Spells(word, "completed"))
    && (x == Failed <==> Spells(word, "failed"))
    && (x == Error <==> Spells(word, "error"))
    && (x == Skipped <==> Spells(word, "skipped") || Spells(word, "skip"))
    && (x == Idle <==> Spells(word, "idle") || Spells(word, "pending"))
  }

  ghost predicate AlarmType(typ: string) {
    typ in {"STEP_TIMEOUT", "CONDITION_TIMEOUT", "RESOURCE_TIMEOUT", "DEADLOCK_DETECTED", "WORKER_EXHAUSTED"}
  }

  ghost predicate MeasurementType(typ: string) {
    typ in {"MEASUREMENT_RECORDED", "VARIABLE_CHANGED"}
  }

  ghost predicate OfAlarm(e: ExecutionEvent) {
    e.category == "alarm" || (e.category == "" && AlarmType(e.typ))
  }

  ghost predicate OfMeasurement(e: ExecutionEvent) {
    e.category == "measurement" || (e.category == "" && MeasurementType(e.typ))
  }

  ghost predicate OfEvent(e: ExecutionEvent) {
    e.category == "event" || (e.category == "" && !AlarmType(e.typ) && !MeasurementType(e.typ))
  }

  // ----- what an input says -----

  /** What a step event says of its step. */
  ghost predicate Says(e: ExecutionEvent, x: StepStatus) {
    || (e.typ in {"STEP_STARTED", "LOOP_ITERATION_STARTED"} && x == Running)
    || (e.typ == "STEP_FAILED" && x == Failed)
    || (e.typ == "STEP_SKIPPED" && x == Skipped)
    || (e.typ in {"STEP_COMPLETED", "LOOP_ITERATION_COMPLETED"} && Means(e.status, x))
    || (e.typ == "STEP_STATUS_CHANGED" && Means(if e.newStatus == "" then e.status else e.newStatus, x))
  }

  /** The event reports status x of the step: a step event, or its timeout alarm. */
  ghost predicate Reports(e: ExecutionEvent, id: string, x: StepStatus) {
    && id != "" && e.stepId == Some(id)
    && ((OfEvent(e) && Says(e, x)) || (OfAlarm(e) && e.typ == "STEP_TIMEOUT" && x == Error))
  }

  /** The event completes a step or an iteration. */
  ghost predicate Finishes(e: ExecutionEvent) {
    && OfEvent(e) && e.stepId.Some? && e.stepId.value != ""
    && e.typ in {"STEP_COMPLETED", "STEP_FAILED", "STEP_SKIPPED", "LOOP_ITERATION_COMPLETED"}
  }

  ghost predicate StartsOver(i: Input) {
    || (i.Message? && OfEvent(i.event) && i.event.typ == "EXECUTION_STARTED")
    || (i.RunChange? && i.newId != "" && i.newId != i.oldId)
    || i.Reset?
  }

  lemma Letter(c: char, l: char)
    requires 'a' <= l <= 'z'
    ensures Lower(c) == l <==> SpellsLetter(c, l)
  {
  }

  lemma Word(s: string, word: string)
    requires forall i :: 0 <= i < |word| ==> 'a' <= word[i] <= 'z'
    ensures seq(|s|, i requires 0 <= i < |s| => Lower(s[i])) == word <==> Spells(s, word)
  {
    var lower := seq(|s|, i requires 0 <= i < |s| => Lower(s[i]));
    if |s| == |word| {
      forall i | 0 <= i < |s| ensures lower[i] == word[i] <==> SpellsLetter(s[i], word[i]) { Letter(s[i], word[i]); }
    }
  }

  lemma WordMeans(s: string)
    ensures Means(s, MapBackendStatus(s))
    ensures forall x :: Means(s, x) ==> x == MapBackendStatus(s)
  {
    Word(s, "passed");
    Word(s, "success");
    Word(s, "completed");
    Word(s, "failed");
    Word(s, "error");
    Word(s, "skipped");
    Word(s, "skip");
    Word(s, "idle");
    Word(s, "pending");
  }

  lemma Categories(e: ExecutionEvent)
    ensures OfEvent(e) <==> Category(e) == "event"
    ensures OfAlarm(e) <==> Category(e) == "alarm"
    ensures OfMeasurement(e) <==> Category(e) == "measurement"
  {
  }

  lemma OneMeaning(s: string, x: StepStatus)
    ensures Means(s, x) <==> x == MapBackendStatus(s)
  {
    WordMeans(s);
  }

  lemma StatusSays(e: ExecutionEvent, x: StepStatus)
    ensures Says(e, x) <==> e.typ in STEP_EVENT_TYPES && x == StatusOf(e)
  {
    OneMeaning(e.status, x);
    OneMeaning(e.newStatus, x);
  }

  lemma AskedReports(e: ExecutionEvent, id: string, x: StepStatus)
    ensures Reports(e, id, x) <==> Asked(e) == Some((id, x))
  {
    Categories(e);
    StatusSays(e, x);
  }

  lemma SameWipes(i: Input)
    ensures StartsOver(i) <==> Wipes(i)
  {
    if i.Message? { Categories(i.event); }
  }

  // ----- statuses: the last report decides -----

  /** Before the k-th input the component had not gone away. */
  ghost predicate Live(inputs: seq<Input>, k: nat)
    requires k <= |inputs|
  {
    forall j :: 0 <= j < k ==> !inputs[j].Unmount?
  }

  /** The input reports on the step. */
  ghost predicate Concerns(i: Input, id: string) {
    i.Message? && exists x :: Reports(i.event, id, x)
  }

  /** The k-th input reported x of the step on a live screen; since then nothing
      started over and no live screen was told of the step again. */
  ghost predicate LastReport(inputs: seq<Input>, k: nat, id: string, x: StepStatus) {
    && k < |inputs| && inputs[k].Message? && Reports(inputs[k].event, id, x) && Live(inputs, k)
    && forall j :: k < j < |inputs| ==> Quiet(inputs, j, id)
  }

  /** The j-th input does not start over, nor tell a live screen of the step. */
  ghost predicate Quiet(inputs: seq<Input>, j: nat, id: string)
    requires j < |inputs|
  {
    !StartsOver(inputs[j]) && !(Live(inputs, j) && Concerns(inputs[j], id))
  }

  ghost predicate Shows(statuses: map<string, StepStatus>, id: string, x: StepStatus) {
    id in statuses && statuses[id] == x
  }

  lemma {:induction false} DirectSnoc(d: Direct, inputs: seq<Input>, i: Input)
    ensures DirectRun(d, inputs + [i]) == DirectStep(DirectRun(d, inputs), i)
    decreases |inputs|
  {
    if inputs == [] {
      assert [i][1..] == [];
    } else {
      assert (inputs + [i])[0] == inputs[0] && (inputs + [i])[1..] == inputs[1..] + [i];
      DirectSnoc(DirectStep(d, inputs[0]), inputs[1..], i);
    }
  }

  function Shown(inputs: seq<Input>): Direct {
    DirectRun(Direct(BLANK, true), inputs)
  }

  lemma ShownNext(inputs: seq<Input>)
    requires inputs != []
    ensures Shown(inputs) == DirectStep(Shown(inputs[..|inputs| - 1]), inputs[|inputs| - 1])
  {
    assert inputs == inputs[..|inputs| - 1] + [inputs[|inputs| - 1]];
    DirectSnoc(Direct(BLANK, true), inputs[..|inputs| - 1], inputs[|inputs| - 1]);
  }

  lemma {:induction false} ShownLive(inputs: seq<Input>)
    ensures Shown(inputs).live <==> Live(inputs, |inputs|)
  {
    if inputs != [] {
      ShownLive(inputs[..|inputs| - 1]);
      ShownNext(inputs);
    }
  }

  /** One input: a start-over shows nothing, a report on a live screen shows its
      status, and nothing else changes what is shown of a step. */
  lemma OneInput(d: Direct, i: Input, id: string, x: StepStatus)
    ensures var e := DirectStep(d, i);
      Shows(e.screen.stepStatuses, id, x) <==>
        if StartsOver(i) then false
        else if d.live && Concerns(i, id) then Reports(i.event, id, x)
        else Shows(d.screen.stepStatuses, id, x)
  {
    SameWipes(i);
    if i.Message? {
      AskedReports(i.event, id, x);
      if Asked(i.event).Some? {
        AskedReports(i.event, id, Asked(i.event).value.1);
        if StartsOver(i) { StartAsksNothing(i.event); }
      }
      forall y ensures Reports(i.event, id, y) <==> Asked(i.event) == Some((id, y)) { AskedReports(i.event, id, y); }
    }
  }

  lemma {:induction false} LastReportShown(inputs: seq<Input>, id: string, x: StepStatus)
    ensures Shows(Shown(inputs).screen.stepStatuses, id, x) <==> Reported(inputs, id, x)
  {
    if inputs != [] {
      var n := |inputs| - 1;
      var init, i := inputs[..n], inputs[n];
      ShownNext(inputs);
      ShownLive(init);
      LastReportShown(init, id, x);
      OneInput(Shown(init), i, id, x);
      OneInputMore(inputs, id, x);
    }
  }

  ghost predicate Reported(inputs: seq<Input>, id: string, x: StepStatus) {
    exists k: nat :: LastReport(inputs, k, id, x)
  }

  lemma OneInputMore(inputs: seq<Input>, id: string, x: StepStatus)
    requires inputs != []
    ensures var n := |inputs| - 1; var init, i := inputs[..n], inputs[n];
      Reported(inputs, id, x) <==>
        if StartsOver(i) then false
        else if Live(init, n) && Concerns(i, id) then Reports(i.event, id, x)
        else Reported(init, id, x)
  {
    var n := |inputs| - 1;
    var init, i := inputs[..n], inputs[n];
    SameLive(inputs, n, n);
    LastIsReport(inputs, id, x);
    if Reported(inputs, id, x) { ReportedEarlier(inputs, id, x); }
    if Reported(init, id, x) && !StartsOver(i) && !(Live(init, n) && Concerns(i, id)) { ReportedStill(inputs, id, x); }
  }

  lemma ReportedEarlier(inputs: seq<Input>, id: string, x: StepStatus)
    requires inputs != [] && Reported(inputs, id, x)
    ensures var n := |inputs| - 1; var init, i := inputs[..n], inputs[n];
      LastReport(inputs, n, id, x)
      || (Reported(init, id, x) && !StartsOver(i) && !(Live(init, n) && Concerns(i, id)))
  {
    var k: nat :| LastReport(inputs, k, id, x);
    if k < |inputs| - 1 { LastReportEarlier(inputs, k, id, x); }
  }

  lemma ReportedStill(inputs: seq<Input>, id: string, x: StepStatus)
    requires inputs != []
    requires var n := |inputs| - 1; var init, i := inputs[..n], inputs[n];
      Reported(init, id, x) && !StartsOver(i) && !(Live(init, n) && Concerns(i, id))
    ensures Reported(inputs, id, x)
  {
    var k: nat :| LastReport(inputs[..|inputs| - 1], k, id, x);
    LastReportEarlier(inputs, k, id, x);
  }

  lemma LastIsReport(inputs: seq<Input>, id: string, x: StepStatus)
    requires inputs != []
    ensures var n := |inputs| - 1; var i := inputs[n];
      LastReport(inputs, n, id, x) <==>
        !StartsOver(i) && Live(inputs, n) && Concerns(i, id) && Reports(i.event, id, x)
  {
    var i := inputs[|inputs| - 1];
    if i.Message? && StartsOver(i) { StartSaysNothing(i.event, id, x); }
  }

  lemma LastReportEarlier(inputs: seq<Input>, k: nat, id: string, x: StepStatus)
    requires inputs != [] && k < |inputs| - 1
    ensures var n := |inputs| - 1; var init, i := inputs[..n], inputs[n];
      LastReport(inputs, k, id, x) <==>
        LastReport(init, k, id, x) && !StartsOver(i) && !(Live(init, n) && Concerns(i, id))
  {
    var n := |inputs| - 1;
    var init := inputs[..n];
    forall j | 0 <= j <= n ensures Live(inputs, j) <==> Live(init, j) { SameLive(inputs, n, j); }
    forall j | k < j < n ensures Quiet(inputs, j, id) <==> Quiet(init, j, id) {
      assert inputs[j] == init[j];
    }
    assert inputs[k] == init[k];
    assert Quiet(inputs, n, id) <==> !StartsOver(inputs[n]) && !(Live(init, n) && Concerns(inputs[n], id));
    if LastReport(inputs, k, id, x) {
      forall j | k < j < n ensures Quiet(init, j, id) { assert Quiet(inputs, j, id); }
    }
  }

  lemma SameLive(inputs: seq<Input>, n: nat, j: nat)
    requires j <= n <= |inputs|
    ensures Live(inputs, j) <==> Live(inputs[..n], j)
  {
    assert forall i :: 0 <= i < j ==> inputs[i] == inputs[..n][i];
  }

  lemma StartSaysNothing(e: ExecutionEvent, id: string, x: StepStatus)
    requires e.typ == "EXECUTION_STARTED"
    ensures !Reports(e, id, x)
  {
  }

  lemma {:induction false} TrackThen(t: Tracker, inputs: seq<Input>, more: seq<Input>)
    ensures TrackAll(t, inputs + more) == TrackAll(TrackAll(t, inputs), more)
    decreases |inputs|
  {
    if inputs == [] {
      assert inputs + more == more;
    } else {
      assert (inputs + more)[0] == inputs[0] && (inputs + more)[1..] == inputs[1..] + more;
      TrackThen(Track(t, inputs[0]), inputs[1..], more);
    }
  }

  lemma Settled(now: real, inputs: seq<Input>, a: real, b: real, c: real)
    ensures TrackAll(Start(now), inputs + [Tick(a), Tick(b), Tick(c)]).screen == Shown(inputs).screen
  {
    var ticks := [Tick(a), Tick(b), Tick(c)];
    TrackThen(Start(now), inputs, ticks);
    TrackThree(TrackAll(Start(now), inputs), Tick(a), Tick(b), Tick(c));
    SettlesInThreeTicks(now, inputs, a, b, c);
  }

  lemma TrackThree(t: Tracker, i: Input, j: Input, k: Input)
    ensures TrackAll(t, [i, j, k]) == Track(Track(Track(t, i), j), k)
  {
    assert [i, j, k][1..] == [j, k] && [j, k][1..] == [k] && [k][1..] == [];
    var u := Track(Track(t, i), j);
    assert TrackAll(u, [k]) == Track(u, k);
    assert TrackAll(Track(t, i), [j, k]) == TrackAll(u, [k]);
  }

  /** For every history and every step: once the pending callbacks have run, the
      screen shows a status exactly when it is that of the last report on the
      step, on a screen that was live then and has not started over since. */
  lemma ShowsLastReport(now: real, inputs: seq<Input>, a: real, b: real, c: real, id: string, x: StepStatus)
    ensures Shows(TrackAll(Start(now), inputs + [Tick(a), Tick(b), Tick(c)]).screen.stepStatuses, id, x)
       <==> exists k: nat :: LastReport(inputs, k, id, x)
  {
    Settled(now, inputs, a, b, c);
    LastReportShown(inputs, id, x);
  }

  /** In particular a report on a live screen is shown three callbacks later. */
  lemma ReportIsShown(now: real, inputs: seq<Input>, e: ExecutionEvent, at: real, a: real, b: real, c: real,
                      id: string, x: StepStatus)
    requires Live(inputs, |inputs|) && Reports(e, id, x)
    ensures Shows(TrackAll(Start(now), inputs + [Message(e, at)] + [Tick(a), Tick(b), Tick(c)]).screen.stepStatuses,
                  id, x)
  {
    var all := inputs + [Message(e, at)];
    ShowsLastReport(now, all, a, b, c, id, x);
    assert Live(all, |inputs|) by { assert forall j :: 0 <= j < |inputs| ==> all[j] == inputs[j]; }
    assert LastReport(all, |inputs|, id, x);
  }

  /** When the run id is cleared or the component goes away, what was pending is
      shown at once. */
  lemma EndFlushes(now: real, inputs: seq<Input>, i: Input)
    requires (i.RunChange? && i.newId == "") || i.Unmount?
    ensures var u := TrackAll(Start(now), inputs + [i]);
      u.buffer.buffer == map[] && u.screen.stepStatuses == Shown(inputs).screen.stepStatuses
  {
    var t := TrackAll(Start(now), inputs);
    TrackThen(Start(now), inputs, [i]);
    assert [i][1..] == [];
    assert TrackAll(t, [i]) == Track(t, i);
    BufferedIsDirect(Start(now), inputs);
    WrittenTwice(map[], map[]);
    StepAgrees(t, i);
    StepConsistent(t, i);
    WrittenTwice(Track(t, i).screen.stepStatuses, map[]);
  }

  /** Statuses of fewer than 200 steps are pending at any time, and a callback
      fifty milliseconds after the first of them, or the third, shows them all. */
  lemma PendingLimits(now: real, inputs: seq<Input>, at: real)
    ensures var t := TrackAll(Start(now), inputs);
      && |t.buffer.buffer| < 200
      && (at - t.buffer.windowStart >= 50.0 || t.buffer.timer == Timeout || t.buffer.buffer == map[]
          <==> Track(t, Tick(at)).buffer.buffer == map[])
  {
    BufferedIsDirect(Start(now), inputs);
    TickShows(TrackAll(Start(now), inputs), at);
  }

  lemma TickShows(t: Tracker, at: real)
    requires Consistent(CONFIG, t.buffer)
    ensures at - t.buffer.windowStart >= 50.0 || t.buffer.timer == Timeout || t.buffer.buffer == map[]
       <==> Feed(t, Fire(at)).buffer.buffer == map[]
  {
  }

  // ----- the other fields -----

  /** Steps and iterations completed since the last start-over. */
  ghost function Finished(inputs: seq<Input>): nat {
    if inputs == [] then 0
    else
      var i := inputs[|inputs| - 1];
      if StartsOver(i) then 0
      else Finished(inputs[..|inputs| - 1]) + if i.Message? && Finishes(i.event) then 1 else 0
  }

  /** The phase the run was last said to be in. */
  ghost function LastPhase(inputs: seq<Input>): Option<Phase> {
    if inputs == [] then None
    else
      var i := inputs[|inputs| - 1];
      if i.Message? && OfEvent(i.event) && i.event.typ == "EXECUTION_STARTED" then Some(RunningRun)
      else if i.Message? && OfEvent(i.event) && i.event.typ == "EXECUTION_COMPLETED" then Some(CompletedRun)
      else if i.Message? && OfEvent(i.event) && i.event.typ == "EXECUTION_PAUSED" then Some(PendingRun)
      else if i.RunChange? && i.newId != "" && i.newId != i.oldId then Some(PendingRun)
      else if (i.RunChange? && i.newId == "") || i.Reset? then None
      else LastPhase(inputs[..|inputs| - 1])
  }

  ghost function LastAlarm(inputs: seq<Input>): Option<ExecutionEvent> {
    if inputs == [] then None
    else
      var i := inputs[|inputs| - 1];
      if StartsOver(i) then None
      else if i.Message? && OfAlarm(i.event) then Some(i.event)
      else LastAlarm(inputs[..|inputs| - 1])
  }

  /** What a measurement is filed under: its name, else its step. */
  ghost predicate Measures(e: ExecutionEvent, name: string) {
    && OfMeasurement(e)
    && (|| e.name == Some(name)
        || (e.name == None && e.stepId == Some(name))
        || (e.name == None && e.stepId == None && name == "unknown"))
  }

  ghost function LastMeasurement(inputs: seq<Input>, name: string): Option<ExecutionEvent> {
    if inputs == [] then None
    else
      var i := inputs[|inputs| - 1];
      if StartsOver(i) then None
      else if i.Message? && Measures(i.event, name) then Some(i.event)
      else LastMeasurement(inputs[..|inputs| - 1], name)
  }

  ghost function LastTotal(inputs: seq<Input>): int {
    if inputs == [] then 0
    else
      var i := inputs[|inputs| - 1];
      if StartsOver(i) then 0 else if i.SetTotal? then i.count else LastTotal(inputs[..|inputs| - 1])
  }

  function At(m: map<string, ExecutionEvent>, name: string): Option<ExecutionEvent> {
    if name in m then Some(m[name]) else None
  }

  /** The fields besides the statuses are those of the history. */
  ghost predicate Recalls(s: Screen, inputs: seq<Input>) {
    && s.completedSteps == Finished(inputs) && s.executionStatus == LastPhase(inputs)
    && s.latestAlarm == LastAlarm(inputs) && s.totalSteps == LastTotal(inputs)
    && forall name :: At(s.latestMeasurements, name) == LastMeasurement(inputs, name)
  }

  lemma FinishesCompletes(e: ExecutionEvent)
    ensures Finishes(e) <==> Category(e) == "event" && IsStepEvent(e) && Completes(e.typ)
  {
    Categories(e);
  }

  lemma LifecycleFinishesNothing(e: ExecutionEvent)
    requires e.typ in ["EXECUTION_STARTED", "EXECUTION_COMPLETED", "EXECUTION_PAUSED"]
    ensures !Finishes(e)
  {
  }

  lemma MessageRecalled(d: Direct, inputs: seq<Input>)
    requires inputs != [] && inputs[|inputs| - 1].Message? && Recalls(d.screen, inputs[..|inputs| - 1])
    ensures Recalls(DirectStep(d, inputs[|inputs| - 1]).screen, inputs)
  {
    var e := inputs[|inputs| - 1].event;
    var s := DirectStep(d, inputs[|inputs| - 1]).screen;
    Categories(e);
    FinishesCompletes(e);
    if e.typ in ["EXECUTION_STARTED", "EXECUTION_COMPLETED", "EXECUTION_PAUSED"] { LifecycleFinishesNothing(e); }
    assert s.completedSteps == Finished(inputs);
    assert s.executionStatus == LastPhase(inputs);
    assert s.latestAlarm == LastAlarm(inputs);
    assert s.totalSteps == LastTotal(inputs);
    assert forall name :: At(s.latestMeasurements, name) == LastMeasurement(inputs, name);
  }

  lemma OtherRecalled(d: Direct, inputs: seq<Input>)
    requires inputs != [] && !inputs[|inputs| - 1].Message? && Recalls(d.screen, inputs[..|inputs| - 1])
    ensures Recalls(DirectStep(d, inputs[|inputs| - 1]).screen, inputs)
  {
  }

  lemma {:induction false} ShownRecalls(inputs: seq<Input>)
    ensures Recalls(Shown(inputs).screen, inputs)
  {
    if inputs != [] {
      var init := inputs[..|inputs| - 1];
      ShownRecalls(init);
      ShownNext(inputs);
      if inputs[|inputs| - 1].Message? {
        MessageRecalled(Shown(init), inputs);
      } else {
        OtherRecalled(Shown(init), inputs);
      }
    }
  }

  /** For every history, callbacks run or not: the completion count is that of
      the completing events since the last start-over, and phase, alarm,
      measurements and total are those of the last input that set them. */
  lemma ScreenRecalls(now: real, inputs: seq<Input>)
    ensures Recalls(TrackAll(Start(now), inputs).screen, inputs)
  {
    BufferedIsDirect(Start(now), inputs);
    WrittenTwice(map[], map[]);
    ShownRecalls(inputs);
    assert Abstract(TrackAll(Start(now), inputs)) == Shown(inputs);
  }
}
