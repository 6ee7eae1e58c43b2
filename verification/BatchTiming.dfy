/** When the batch buffer hands over and what it then holds, told from the
    history of events. */
module BatchTiming {
  import opened Batching
  import opened Options

  lemma {:induction false} RunSnoc<V>(c: Config, s: State<V>, es: seq<Event<V>>, e: Event<V>)
    ensures Run(c, s, es + [e]) == Step(c, Run(c, s, es), e).state
    decreases |es|
  {
    if es == [] {
      assert [e][1..] == [];
    } else {
      assert (es + [e])[0] == es[0] && (es + [e])[1..] == es[1..] + [e];
      RunSnoc(c, Step(c, s, es[0]).state, es[1..], e);
    }
  }

  /** The state after the first k events. */
  function Upto<V>(c: Config, t0: real, es: seq<Event<V>>, k: nat): State<V>
    requires k <= |es|
  {
    Run(c, Initial(t0), es[..k])
  }

  lemma UptoNext<V>(c: Config, t0: real, es: seq<Event<V>>, k: nat)
    requires k < |es|
    ensures Upto(c, t0, es, k + 1) == Step(c, Upto(c, t0, es, k), es[k]).state
    ensures Consistent(c, Upto(c, t0, es, k))
  {
    assert es[..k + 1] == es[..k] + [es[k]];
    RunSnoc(c, Initial(t0), es[..k], es[k]);
    RunKeeps(c, Initial<V>(t0), es[..k]);
  }

  // ----- the window -----

  /** The k-th event opened the present window: a push into an empty buffer that
      has not been empty since. */
  ghost predicate Opens<V>(c: Config, t0: real, es: seq<Event<V>>, k: nat) {
    && k < |es| && es[k].Push? && Upto(c, t0, es, k).buffer == map[]
    && forall j :: k < j <= |es| ==> Upto(c, t0, es, j).buffer != map[]
  }

  /** Callbacks that have run since the k-th event. */
  ghost function FramesSince<V>(es: seq<Event<V>>, k: nat): nat
    requires k <= |es|
    decreases |es| - k
  {
    if k == |es| then 0 else (if es[k].Fire? then 1 else 0) + FramesSince(es, k + 1)
  }

  lemma {:induction false} FramesSnoc<V>(es: seq<Event<V>>, e: Event<V>, k: nat)
    requires k <= |es|
    ensures FramesSince(es + [e], k) == FramesSince(es, k) + if e.Fire? then 1 else 0
    decreases |es| - k
  {
    if k < |es| {
      FramesSnoc(es, e, k + 1);
      assert (es + [e])[k] == es[k];
    }
  }

  function Stage(t: Timer): nat {
    match t
    case NotSet => 3
    case FirstFrame => 0
    case SecondFrame => 1
    case Timeout => 2
  }

  /** The state knows when its window opened and how many callbacks have run. */
  ghost predicate Since<V>(s: State<V>, es: seq<Event<V>>, k: nat) {
    k < |es| && es[k].Push? && s.windowStart == es[k].now && Stage(s.timer) == FramesSince(es, k + 1)
  }

  lemma SinceFirst<V>(c: Config, s: State<V>, es: seq<Event<V>>, e: Event<V>)
    requires Consistent(c, s) && s.buffer == map[] && Step(c, s, e).state.buffer != map[]
    ensures e.Push? && Since(Step(c, s, e).state, es + [e], |es|)
  {
  }

  lemma SinceNext<V>(c: Config, s: State<V>, es: seq<Event<V>>, e: Event<V>, k: nat)
    requires Consistent(c, s) && s.buffer != map[] && Step(c, s, e).state.buffer != map[] && Since(s, es, k)
    ensures Since(Step(c, s, e).state, es + [e], k)
  {
    FramesSnoc(es, e, k + 1);
  }

  lemma {:induction false} OpensSince<V>(c: Config, t0: real, es: seq<Event<V>>) returns (k: nat)
    requires Run(c, Initial(t0), es).buffer != map[]
    ensures Opens(c, t0, es, k) && Since(Run(c, Initial(t0), es), es, k)
    decreases |es|
  {
    var n := |es| - 1;
    var init := es[..n];
    assert es == init + [es[n]] && es[..n + 1] == es;
    UptoNext(c, t0, es, n);
    if Upto(c, t0, es, n).buffer == map[] {
      SinceFirst(c, Upto(c, t0, es, n), init, es[n]);
      k := n;
    } else {
      k := OpensSince(c, t0, init);
      SinceNext(c, Upto(c, t0, es, n), init, es[n], k);
      OpensNext(c, t0, es, k);
    }
  }

  lemma OpensNext<V>(c: Config, t0: real, es: seq<Event<V>>, k: nat)
    requires es != [] && Opens(c, t0, es[..|es| - 1], k) && Upto(c, t0, es, |es|).buffer != map[]
    ensures Opens(c, t0, es, k)
  {
    var init := es[..|es| - 1];
    assert init[..k] == es[..k];
    forall j | k < j <= |es| ensures Upto(c, t0, es, j).buffer != map[] {
      if j < |es| { assert init[..j] == es[..j] && Upto(c, t0, init, j).buffer != map[]; }
    }
  }

  lemma OneOpening<V>(c: Config, t0: real, es: seq<Event<V>>, k: nat, m: nat)
    requires Opens(c, t0, es, k) && Opens(c, t0, es, m)
    ensures k == m
  {
  }

  /** In every run, the callback of a window hands over the whole buffer exactly
      when at least windowMs has passed since the push that opened the window, or
      two callbacks have run before it; else it hands over nothing. */
  lemma CallbackDelivers<V>(c: Config, t0: real, es: seq<Event<V>>, k: nat, now: real)
    requires Opens(c, t0, es, k)
    ensures var s := Run(c, Initial<V>(t0), es);
      Step(c, s, Fire(now)).delivered
        == if now - es[k].now >= c.windowMs || FramesSince(es, k + 1) == 2 then Some(s.buffer) else None
    ensures FramesSince(es, k + 1) <= 2
  {
    assert es[..|es|] == es && Upto(c, t0, es, |es|).buffer != map[];
    RunKeeps(c, Initial<V>(t0), es);
    var m := OpensSince(c, t0, es);
    OneOpening(c, t0, es, k, m);
  }

  /** A push hands over exactly when it brings the number of nodes in the buffer
      to the maximum; the other calls exactly when something is buffered. */
  lemma CallDelivers<V>(c: Config, t0: real, es: seq<Event<V>>, e: Event<V>)
    requires !e.Fire?
    ensures var s := Run(c, Initial<V>(t0), es);
      Step(c, s, e).delivered.Some? <==>
        if e.Push? then !s.destroyed && |s.buffer.Keys + {e.id}| >= c.maxBatchSize else s.buffer != map[]
  {
    RunKeeps(c, Initial<V>(t0), es);
    StepDelivers(c, Run(c, Initial<V>(t0), es), e);
  }

  lemma StepDelivers<V>(c: Config, s: State<V>, e: Event<V>)
    requires Consistent(c, s) && !e.Fire?
    ensures Step(c, s, e).delivered.Some? <==>
      if e.Push? then !s.destroyed && |s.buffer.Keys + {e.id}| >= c.maxBatchSize else s.buffer != map[]
  {
    if e.Push? { MergedSize(s.buffer, e.id, e.data); }
  }

  lemma MergedSize<V>(u: Updates<V>, id: string, data: map<string, V>)
    ensures |Merged(u, id, data)| == |u.Keys + {id}| && Merged(u, id, data) != map[]
  {
    assert Merged(u, id, data).Keys == u.Keys + {id};
    assert id in Merged(u, id, data);
  }

  // ----- the latest value wins -----

  /** The k-th event is the last accepted push with a value for this key of the
      node. */
  ghost predicate LastPush<V>(es: seq<Event<V>>, k: nat, id: string, key: string) {
    && k < |es| && es[k].Push? && es[k].id == id && key in es[k].data && Destroy !in es[..k]
    && forall j :: k < j < |es| && es[j].Push? && es[j].id == id && key in es[j].data ==> Destroy in es[..j]
  }

  ghost predicate Holds<V>(u: Updates<V>, id: string, key: string, v: V) {
    id in u && key in u[id] && u[id][key] == v
  }

  lemma {:induction false} AppliedSnoc<V>(u: Updates<V>, gone: bool, es: seq<Event<V>>, e: Event<V>)
    ensures Applied(u, gone, es + [e]) == Accepted(Applied(u, gone, es), gone || Destroy in es, e)
    decreases |es|
  {
    if es == [] {
      assert [e][1..] == [];
    } else {
      assert (es + [e])[0] == es[0] && (es + [e])[1..] == es[1..] + [e];
      AppliedSnoc(Accepted(u, gone, es[0]), gone || es[0].Destroy?, es[1..], e);
      assert Destroy in es <==> es[0].Destroy? || Destroy in es[1..];
    }
  }

  lemma LastPushNext<V>(es: seq<Event<V>>, e: Event<V>, id: string, key: string, v: V)
    ensures var accepted := e.Push? && Destroy !in es && e.id == id && key in e.data;
      (exists k: nat :: LastPush(es + [e], k, id, key) && (es + [e])[k].data[key] == v) <==>
        if accepted then e.data[key] == v
        else exists k: nat :: LastPush(es, k, id, key) && es[k].data[key] == v
  {
    var all, n := es + [e], |es|;
    assert all[..n] == es;
    forall k: nat | k < n
      ensures LastPush(all, k, id, key) <==>
        LastPush(es, k, id, key) && !(e.Push? && Destroy !in es && e.id == id && key in e.data)
    {
      assert all[..k] == es[..k];
      assert forall j :: k < j < n ==> all[..j] == es[..j];
    }
    assert LastPush(all, n, id, key) <==> e.Push? && Destroy !in es && e.id == id && key in e.data;
    if k: nat :| LastPush(es, k, id, key) && es[k].data[key] == v { assert all[k] == es[k]; }
  }

  /** What a receiver ends up with, key by key: the value of the last push that
      named it before the buffer was destroyed. */
  lemma {:induction false} LatestWins<V>(es: seq<Event<V>>, id: string, key: string, v: V)
    ensures Holds(Applied(map[], false, es), id, key, v) <==>
      exists k: nat :: LastPush(es, k, id, key) && es[k].data[key] == v
    decreases |es|
  {
    if es != [] {
      var init, e := es[..|es| - 1], es[|es| - 1];
      assert es == init + [e];
      LatestWins(init, id, key, v);
      AppliedSnoc(map[], false, init, e);
      LastPushNext(init, e, id, key, v);
    }
  }

  // ----- the statistics -----

  /** Pushes before the destruction. */
  ghost function Accepts<V>(es: seq<Event<V>>): nat {
    if es == [] then 0
    else
      var init, e := es[..|es| - 1], es[|es| - 1];
      Accepts(init) + if e.Push? && Destroy !in init then 1 else 0
  }

  /** The received count is that of the accepted pushes. */
  lemma {:induction false} ReceivedCounts<V>(c: Config, t0: real, es: seq<Event<V>>)
    ensures var s := Run(c, Initial<V>(t0), es);
      s.stats.eventsReceived == Accepts(es) && (s.destroyed <==> Destroy in es)
    decreases |es|
  {
    if es != [] {
      var init, e := es[..|es| - 1], es[|es| - 1];
      assert es == init + [e];
      ReceivedCounts(c, t0, init);
      RunSnoc(c, Initial(t0), init, e);
      AllOrNothing(c, Run(c, Initial(t0), init), e);
    }
  }

  /** Statistics are published with each batch and at no other time. */
  lemma PublishedWithBatch<V>(c: Config, s: State<V>, e: Event<V>)
    ensures var o := Step(c, s, e); o.state.published == if o.delivered.Some? then o.state.stats else s.published
  {
  }
}
