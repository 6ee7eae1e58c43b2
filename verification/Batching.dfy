/** The buffer that collects node updates and hands them over in batches. */
module Batching {
  import opened Options

  /** Partial data by node id. */
  type Updates<V> = map<string, map<string, V>>

  /** What the one pending callback is, if there is one. */
  datatype Timer = NotSet | FirstFrame | SecondFrame | Timeout

  datatype Config = Config(windowMs: real := 50.0, maxBatchSize: int := 200)

  datatype Stats = Stats(eventsReceived: nat, batchesFlushed: nat, avgBatchSize: real)

  datatype State<V> = State(buffer: Updates<V>, timer: Timer, windowStart: real, destroyed: bool,
                            stats: Stats, published: Stats)

  /** What can happen to a buffer: the three public calls, and its pending
      callback being run. The clock is read by pushes and callbacks. */
  datatype Event<V> =
    | Push(id: string, data: map<string, V>, now: real)
    | Flush
    | Destroy
    | Fire(now: real)

  /** The state after an event, and the batch given to the flush callback. */
  datatype Outcome<V> = Outcome(state: State<V>, delivered: Option<Updates<V>>)

  function Initial<V>(now: real): State<V> {
    State(map[], NotSet, now, false, Stats(0, 0, 0.0), Stats(0, 0, 0.0))
  }

  /** The shallow merge: the latest value of each key wins. */
  function Merged<V>(u: Updates<V>, id: string, data: map<string, V>): Updates<V> {
    u[id := At(u, id) + data]
  }

  function At<V>(u: Updates<V>, id: string): map<string, V> {
    if id in u then u[id] else map[]
  }

  // ----- one event -----

  /** The average over n batches from the one over the n - 1 before the last. */
  function RollingAverage(avg: real, n: nat, size: nat): real {
    if n <= 1 then size as real else (avg * (n - 1) as real + size as real) / n as real
  }

  function Counted(stats: Stats, size: nat): Stats {
    var n := stats.batchesFlushed + 1;
    Stats(stats.eventsReceived, n, RollingAverage(stats.avgBatchSize, n, size))
  }

  function Flushed<V>(s: State<V>): Outcome<V> {
    if s.buffer == map[] then Outcome(s.(timer := NotSet), None)
    else
      var stats := Counted(s.stats, |s.buffer|);
      Outcome(s.(buffer := map[], timer := NotSet, stats := stats, published := stats), Some(s.buffer))
  }

  function Pushed<V>(s: State<V>, id: string, data: map<string, V>, now: real): State<V> {
    s.(buffer := Merged(s.buffer, id, data),
       stats := s.stats.(eventsReceived := s.stats.eventsReceived + 1),
       timer := if s.timer == NotSet then FirstFrame else s.timer,
       windowStart := if s.timer == NotSet then now else s.windowStart)
  }

  /** Two frames check the window, the timeout after them no longer does. */
  function Fired<V>(c: Config, s: State<V>, now: real): Outcome<V> {
    if s.timer == NotSet then Outcome(s, None)
    else if s.destroyed then Outcome(s.(timer := NotSet), None)
    else if s.timer == Timeout || now - s.windowStart >= c.windowMs then Flushed(s.(timer := NotSet))
    else Outcome(s.(timer := if s.timer == FirstFrame then SecondFrame else Timeout), None)
  }

  function Step<V>(c: Config, s: State<V>, e: Event<V>): Outcome<V> {
    match e
    case Push(id, data, now) =>
      if s.destroyed then Outcome(s, None)
      else
        var t := Pushed(s, id, data, now);
        if |t.buffer| >= c.maxBatchSize then Flushed(t) else Outcome(t, None)
    case Flush => if s.destroyed then Outcome(s, None) else Flushed(s)
    case Destroy => if s.destroyed then Outcome(s, None) else Flushed(s.(destroyed := true))
    case Fire(now) => Fired(c, s, now)
  }

  // ----- whole runs -----

  function Run<V>(c: Config, s: State<V>, es: seq<Event<V>>): State<V>
    decreases |es|
  {
    if es == [] then s else Run(c, Step(c, s, es[0]).state, es[1..])
  }

  /** The batches handed over during a run, in order. */
  function Deliveries<V>(c: Config, s: State<V>, es: seq<Event<V>>): seq<Updates<V>>
    decreases |es|
  {
    if es == [] then []
    else
      var o := Step(c, s, es[0]);
      if o.delivered.Some? then [o.delivered.value] + Deliveries(c, o.state, es[1..])
      else Deliveries(c, o.state, es[1..])
  }

  /** A callback is pending exactly while something is buffered; a destroyed
      buffer holds nothing; between events the size is below the maximum. */
  predicate Consistent<V>(c: Config, s: State<V>) {
    && (s.timer != NotSet <==> s.buffer != map[])
    && (s.destroyed ==> s.buffer == map[])
    && (s.buffer == map[] || |s.buffer| < c.maxBatchSize)
    && (s.stats.batchesFlushed == 0 ==> s.stats.avgBatchSize == 0.0)
    && s.published.batchesFlushed == s.stats.batchesFlushed && s.published.avgBatchSize == s.stats.avgBatchSize
  }

  lemma StepKeeps<V>(c: Config, s: State<V>, e: Event<V>)
    requires Consistent(c, s)
    ensures Consistent(c, Step(c, s, e).state)
  {
    match e {
      case Push(id, data, now) => assert id in Merged(s.buffer, id, data);
      case _ =>
    }
  }

  lemma {:induction false} RunKeeps<V>(c: Config, s: State<V>, es: seq<Event<V>>)
    requires Consistent(c, s)
    ensures Consistent(c, Run(c, s, es))
    decreases |es|
  {
    if es != [] {
      StepKeeps(c, s, es[0]);
      RunKeeps(c, Step(c, s, es[0]).state, es[1..]);
    }
  }

  /** In every reachable state, for every maximum: a non-empty buffer of a live
      object has its callback pending and is smaller than the maximum. */
  lemma Reachable<V>(c: Config, now: real, es: seq<Event<V>>)
    ensures var s := Run(c, Initial<V>(now), es);
      && (s.buffer != map[] ==> s.timer != NotSet && !s.destroyed && |s.buffer| < c.maxBatchSize)
      && (s.timer != NotSet ==> s.buffer != map[])
  {
    RunKeeps(c, Initial<V>(now), es);
  }

  // ----- the average -----

  ghost function Entries<V>(batches: seq<Updates<V>>): nat {
    if batches == [] then 0 else |batches[0]| + Entries(batches[1..])
  }

  ghost function Sent<V>(o: Outcome<V>): seq<Updates<V>> {
    if o.delivered.Some? then [o.delivered.value] else []
  }

  /** The average after these batches, from one over n before them. */
  ghost function AverageAfter<V>(avg: real, n: nat, batches: seq<Updates<V>>): real
    decreases |batches|
  {
    if batches == [] then avg else AverageAfter(RollingAverage(avg, n + 1, |batches[0]|), n + 1, batches[1..])
  }

  /** A step hands over at most one batch and counts it. */
  lemma StepCounts<V>(c: Config, s: State<V>, e: Event<V>)
    ensures var o := Step(c, s, e); var n := s.stats.batchesFlushed;
      && o.state.stats.batchesFlushed == n + |Sent(o)|
      && o.state.stats.avgBatchSize
         == if Sent(o) == [] then s.stats.avgBatchSize else RollingAverage(s.stats.avgBatchSize, n + 1, |Sent(o)[0]|)
  {
  }

  lemma SentFirst<V>(c: Config, s: State<V>, es: seq<Event<V>>)
    requires es != []
    ensures var o := Step(c, s, es[0]); Deliveries(c, s, es) == Sent(o) + Deliveries(c, o.state, es[1..])
  {
  }

  /** The later statistics are the earlier ones after these batches. */
  ghost predicate Counts<V>(s: Stats, batches: seq<Updates<V>>, t: Stats) {
    && t.batchesFlushed == s.batchesFlushed + |batches|
    && t.avgBatchSize == AverageAfter(s.avgBatchSize, s.batchesFlushed, batches)
  }

  lemma CountsFirst<V>(s: Stats, first: seq<Updates<V>>, u: Stats, rest: seq<Updates<V>>, t: Stats)
    requires |first| <= 1 && Counts(s, first, u) && Counts(u, rest, t)
    ensures Counts(s, first + rest, t)
  {
    if first == [] {
      assert first + rest == rest;
    } else {
      assert first[1..] == [] && (first + rest)[1..] == rest && (first + rest)[0] == first[0];
      var next := RollingAverage(s.avgBatchSize, s.batchesFlushed + 1, |first[0]|);
      assert AverageAfter(next, s.batchesFlushed + 1, first[1..]) == next;
    }
  }

  lemma StepIsCounted<V>(c: Config, s: State<V>, e: Event<V>)
    ensures Counts(s.stats, Sent(Step(c, s, e)), Step(c, s, e).state.stats)
  {
    StepCounts(c, s, e);
    var sent := Sent(Step(c, s, e));
    if sent != [] { assert sent[1..] == []; }
  }

  /** The statistics of every run are those of the batches it handed over. */
  lemma {:induction false} RunCounts<V>(c: Config, s: State<V>, es: seq<Event<V>>)
    ensures Counts(s.stats, Deliveries(c, s, es), Run(c, s, es).stats)
    decreases |es|
  {
    if es != [] {
      var o := Step(c, s, es[0]);
      var rest := Deliveries(c, o.state, es[1..]);
      StepIsCounted(c, s, es[0]);
      RunCounts(c, o.state, es[1..]);
      SentFirst(c, s, es);
      CountsFirst(s.stats, Sent(o), o.state.stats, rest, Run(c, o.state, es[1..]).stats);
    }
  }

  /** n times a, by addition. */
  ghost function Times(a: real, n: nat): real {
    if n == 0 then 0.0 else a + Times(a, n - 1)
  }

  lemma {:induction false} TimesIsProduct(a: real, n: nat)
    ensures Times(a, n) == a * n as real
  {
    if n > 0 { TimesIsProduct(a, n - 1); }
  }

  lemma Quotient(sum: real, n: nat)
    requires n > 0
    ensures (sum / n as real) * n as real == sum
  {
  }

  lemma Rolled(avg: real, n: nat, size: nat, total: nat)
    requires Times(avg, n) == total as real
    ensures Times(RollingAverage(avg, n + 1, size), n + 1) == (total + size) as real
  {
    TimesIsProduct(avg, n);
    TimesIsProduct(RollingAverage(avg, n + 1, size), n + 1);
    if n > 0 { Quotient(total as real + size as real, n + 1); }
  }

  /** Count times average is the number of entries, batch by batch. */
  lemma {:induction false} AverageTotals<V>(avg: real, n: nat, batches: seq<Updates<V>>, total: nat)
    requires Times(avg, n) == total as real
    ensures Times(AverageAfter(avg, n, batches), n + |batches|) == (total + Entries(batches)) as real
    decreases |batches|
  {
    if batches != [] {
      var size := |batches[0]|;
      Rolled(avg, n, size, total);
      AverageTotals(RollingAverage(avg, n + 1, size), n + 1, batches[1..], total + size);
    }
  }

  /** The flush count is the number of batches, and average times count the
      number of entries in them. */
  ghost predicate Averages<V>(stats: Stats, batches: seq<Updates<V>>) {
    stats.batchesFlushed == |batches| && stats.avgBatchSize * stats.batchesFlushed as real == Entries(batches) as real
  }

  lemma BatchesAverage<V>(stats: Stats, batches: seq<Updates<V>>)
    requires stats.batchesFlushed == |batches| && stats.avgBatchSize == AverageAfter(0.0, 0, batches)
    ensures Averages(stats, batches)
  {
    AverageTotals(0.0, 0, batches, 0);
    TimesIsProduct(stats.avgBatchSize, |batches|);
  }

  /** That holds in every reachable state. */
  lemma AverageCountsEntries<V>(c: Config, now: real, es: seq<Event<V>>)
    ensures Averages(Run(c, Initial<V>(now), es).stats, Deliveries(c, Initial<V>(now), es))
  {
    RunCounts(c, Initial<V>(now), es);
    BatchesAverage(Run(c, Initial<V>(now), es).stats, Deliveries(c, Initial<V>(now), es));
  }

  // ----- nothing lost, nothing invented -----

  function Overlay<V>(u: Updates<V>, v: Updates<V>): Updates<V> {
    map id | id in u.Keys + v.Keys :: At(u, id) + At(v, id)
  }

  /** The pushes of a run applied one by one, with no buffer; those after the
      destruction do not count. */
  function Applied<V>(u: Updates<V>, destroyed: bool, es: seq<Event<V>>): Updates<V>
    decreases |es|
  {
    if es == [] then u else Applied(Accepted(u, destroyed, es[0]), destroyed || es[0].Destroy?, es[1..])
  }

  function Accepted<V>(u: Updates<V>, destroyed: bool, e: Event<V>): Updates<V> {
    if e.Push? && !destroyed then Merged(u, e.id, e.data) else u
  }

  /** Batches applied in the order of delivery. */
  function Received<V>(u: Updates<V>, batches: seq<Updates<V>>): Updates<V>
    decreases |batches|
  {
    if batches == [] then u else Received(Overlay(u, batches[0]), batches[1..])
  }

  lemma OverlayEmpty<V>(u: Updates<V>)
    ensures Overlay(u, map[]) == u && Overlay(map[], u) == u
  {
    assert forall id :: id in u ==> u[id] + map[] == u[id] && map[] + u[id] == u[id];
  }

  lemma OverlayMerged<V>(u: Updates<V>, b: Updates<V>, id: string, data: map<string, V>)
    ensures Overlay(u, Merged(b, id, data)) == Merged(Overlay(u, b), id, data)
  {
    var l, r := Overlay(u, Merged(b, id, data)), Merged(Overlay(u, b), id, data);
    assert l.Keys == r.Keys;
    forall k | k in l ensures l[k] == r[k] {
      if k == id { MergeAssociates(At(u, id), At(b, id), data); }
    }
  }

  lemma MergeAssociates<V>(x: map<string, V>, y: map<string, V>, z: map<string, V>)
    ensures x + (y + z) == (x + y) + z
  {
  }

  /** For every run, with flushes of every kind anywhere in it: the receiver's
      data overlaid with the buffer is what applying each push at once gives. */
  lemma {:induction false} Conserved<V>(c: Config, s: State<V>, es: seq<Event<V>>, u: Updates<V>)
    ensures Overlay(Received(u, Deliveries(c, s, es)), Run(c, s, es).buffer) ==
      Applied(Overlay(u, s.buffer), s.destroyed, es)
    decreases |es|
  {
    if es != [] {
      var o := Step(c, s, es[0]);
      StepConserves(c, s, es[0], u);
      AllOrNothing(c, s, es[0]);
      Conserved(c, o.state, es[1..], After(u, o));
      ReceivedStep(c, s, es, u);
    }
  }

  ghost function After<V>(u: Updates<V>, o: Outcome<V>): Updates<V> {
    if o.delivered.Some? then Overlay(u, o.delivered.value) else u
  }

  lemma ReceivedStep<V>(c: Config, s: State<V>, es: seq<Event<V>>, u: Updates<V>)
    requires es != []
    ensures var o := Step(c, s, es[0]);
      Received(u, Deliveries(c, s, es)) == Received(After(u, o), Deliveries(c, o.state, es[1..]))
  {
    var o := Step(c, s, es[0]);
    if o.delivered.Some? {
      assert Deliveries(c, s, es)[1..] == Deliveries(c, o.state, es[1..]);
    }
  }

  lemma FlushConserves<V>(s: State<V>, u: Updates<V>)
    ensures Overlay(After(u, Flushed(s)), Flushed(s).state.buffer) == Overlay(u, s.buffer)
  {
    OverlayEmpty(Overlay(u, s.buffer));
  }

  lemma StepConserves<V>(c: Config, s: State<V>, e: Event<V>, u: Updates<V>)
    ensures var o := Step(c, s, e);
      Overlay(After(u, o), o.state.buffer) == Accepted(Overlay(u, s.buffer), s.destroyed, e)
  {
    if e.Push? {
      PushConserves(c, s, e, u);
    } else {
      var o := Step(c, s, e);
      AllOrNothing(c, s, e);
      if o.delivered.Some? {
        OverlayEmpty(After(u, o));
      }
    }
  }

  /** Whatever the event, the destroyed flag follows it; and an event other
      than a push hands over the whole buffer or leaves it alone. */
  lemma AllOrNothing<V>(c: Config, s: State<V>, e: Event<V>)
    ensures var o := Step(c, s, e);
      && o.state.destroyed == (s.destroyed || e.Destroy?)
      && (e.Push? || (o.delivered == None && o.state.buffer == s.buffer)
          || (o.delivered == Some(s.buffer) && o.state.buffer == map[]))
  {
  }

  lemma PushConserves<V>(c: Config, s: State<V>, e: Event<V>, u: Updates<V>)
    requires e.Push?
    ensures var o := Step(c, s, e);
      Overlay(After(u, o), o.state.buffer) == Accepted(Overlay(u, s.buffer), s.destroyed, e)
  {
    if !s.destroyed {
      FlushConserves(Pushed(s, e.id, e.data, e.now), u);
      OverlayMerged(u, s.buffer, e.id, e.data);
    }
  }

  /** Once the buffer is empty the receiver is up to date. */
  lemma UpToDate<V>(c: Config, now: real, es: seq<Event<V>>)
    requires Run(c, Initial<V>(now), es).buffer == map[]
    ensures Received(map[], Deliveries(c, Initial<V>(now), es)) == Applied(map[], false, es)
  {
    Conserved(c, Initial<V>(now), es, map[]);
    OverlayEmpty(Received(map[], Deliveries(c, Initial<V>(now), es)));
    OverlayEmpty<V>(map[]);
  }

  // ----- delivery within three firings -----

  function Firings<V>(es: seq<Event<V>>): nat {
    if es == [] then 0 else (if es[0].Fire? then 1 else 0) + Firings(es[1..])
  }

  /** Firings left until the flush at the latest. */
  function Stages(t: Timer): nat {
    match t
    case NotSet => 0
    case FirstFrame => 3
    case SecondFrame => 2
    case Timeout => 1
  }

  /** From any non-empty buffer, a run with as many firings as stages are left
      has a first delivery at some event k, at or before the last of those
      firings, of the buffer and everything pushed up to then. */
  lemma {:induction false} FirstDelivery<V>(c: Config, s: State<V>, es: seq<Event<V>>) returns (k: nat)
    requires Consistent(c, s) && s.buffer != map[] && Firings(es) >= Stages(s.timer)
    ensures k < |es| && Firings(es[..k]) < Stages(s.timer)
    ensures Deliveries(c, s, es[..k]) == []
    ensures Deliveries(c, s, es[..k + 1]) == [Applied(s.buffer, false, es[..k + 1])]
    decreases |es|
  {
    var o := Step(c, s, es[0]);
    assert es[..1] == [es[0]];
    if o.delivered.Some? {
      k := 0;
      assert Deliveries(c, o.state, []) == [];
    } else {
      StepKeeps(c, s, es[0]);
      var j := FirstDelivery(c, o.state, es[1..]);
      k := j + 1;
      assert es[..k][0] == es[0] && es[..k + 1][0] == es[0];
      assert es[..k][1..] == es[1..][..j];
      assert es[..k + 1][1..] == es[1..][..j + 1];
    }
  }

  /** Every push accepted by a live buffer is in the next batch, and three
      firings later at most that batch has been handed over. */
  lemma PushIsDelivered<V>(c: Config, s: State<V>, id: string, data: map<string, V>, now: real, later: seq<Event<V>>)
    returns (k: nat)
    requires Consistent(c, s) && !s.destroyed && Firings(later) >= 3
    ensures k <= |later| && (k == 0 || Firings(later[..k - 1]) <= 2)
    ensures var es := [Push(id, data, now)] + later[..k]; Deliveries(c, s, es) == [Applied(s.buffer, false, es)]
  {
    var push: Event<V> := Push(id, data, now);
    var o := Step(c, s, push);
    StepKeeps(c, s, push);
    if o.delivered.Some? {
      k := 0;
      Consed(c, s, push, later[..0]);
    } else {
      assert id in o.state.buffer;
      var j := FirstDelivery(c, o.state, later);
      k := j + 1;
      Consed(c, s, push, later[..k]);
    }
  }

  /** A run that starts with an event is the rest of it from where that leads. */
  lemma Consed<V>(c: Config, s: State<V>, e: Event<V>, rest: seq<Event<V>>)
    ensures Deliveries(c, s, [e] + rest) == Sent(Step(c, s, e)) + Deliveries(c, Step(c, s, e).state, rest)
    ensures Applied(s.buffer, false, [e] + rest) == Applied(Accepted(s.buffer, false, e), e.Destroy?, rest)
  {
    assert ([e] + rest)[1..] == rest;
  }

  // ----- the object -----

  class BatchBuffer<V> {
    const config: Config
    var buffer: Updates<V>
    var timer: Timer
    var windowStart: real
    var destroyed: bool
    var statsValue: Stats
    var stats: Stats

    ghost function View(): State<V>
      reads this
    {
      State(buffer, timer, windowStart, destroyed, statsValue, stats)
    }

    constructor (now: real, config: Config := Config())
      ensures View() == Initial(now) && this.config == config
    {
      this.config := config;
      buffer, timer, windowStart, destroyed := map[], NotSet, now, false;
      statsValue, stats := Stats(0, 0, 0.0), Stats(0, 0, 0.0);
    }

    method Push(id: string, data: map<string, V>, now: real) returns (delivered: Option<Updates<V>>)
      modifies this
      ensures Outcome(View(), delivered) == Step(config, old(View()), Event.Push(id, data, now))
    {
      delivered := None;
      if destroyed { return; }
      var existing := At(buffer, id);
      buffer := buffer[id := existing + data];
      statsValue := statsValue.(eventsReceived := statsValue.eventsReceived + 1);
      if timer == NotSet {
        windowStart := now;
        ScheduleFlush();
      }
      if |buffer| >= config.maxBatchSize {
        delivered := Flush();
      }
    }

    method Flush(isDestroy: bool := false) returns (delivered: Option<Updates<V>>)
      modifies this
      ensures if old(destroyed) && !isDestroy then Outcome(View(), delivered) == Outcome(old(View()), None)
              else Outcome(View(), delivered) == Flushed(old(View()))
    {
      delivered := None;
      if destroyed && !isDestroy { return; }
      CancelTimer();
      if |buffer| == 0 { return; }
      var updates := buffer;
      buffer := map[];
      statsValue := statsValue.(batchesFlushed := statsValue.batchesFlushed + 1);
      var batchSize := |updates|;
      statsValue := statsValue.(avgBatchSize :=
        RollingAverage(statsValue.avgBatchSize, statsValue.batchesFlushed, batchSize));
      stats := statsValue;
      delivered := Some(updates);
    }

    method DestroyBuffer() returns (delivered: Option<Updates<V>>)
      modifies this
      ensures Outcome(View(), delivered) == Step(config, old(View()), Destroy)
    {
      delivered := None;
      if destroyed { return; }
      destroyed := true;
      delivered := Flush(true);
    }

    method ScheduleFlush()
      modifies this`timer
      ensures timer == if destroyed then old(timer) else FirstFrame
    {
      if destroyed { return; }
      timer := FirstFrame;
    }

    /** The pending callback runs, if there is one. */
    method FireTimer(now: real) returns (delivered: Option<Updates<V>>)
      modifies this
      ensures Outcome(View(), delivered) == Step(config, old(View()), Fire(now))
    {
      delivered := None;
      match timer {
        case NotSet =>
        case FirstFrame =>
          timer := NotSet;
          if destroyed { return; }
          if now - windowStart >= config.windowMs {
            delivered := Flush();
          } else {
            timer := SecondFrame;
          }
        case SecondFrame =>
          timer := NotSet;
          if destroyed { return; }
          if now - windowStart >= config.windowMs {
            delivered := Flush();
          } else {
            timer := Timeout;
          }
        case Timeout =>
          timer := NotSet;
          if destroyed { return; }
          delivered := Flush();
      }
    }

    method CancelTimer()
      modifies this`timer
      ensures timer == NotSet
    {
      if timer != NotSet {
        timer := NotSet;
      }
    }
  }
}
