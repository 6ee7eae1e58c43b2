/** Every run of the refresh protocol: requests, refresh calls, the rotating
    token store, logins and logouts, in any order. */
module RefreshProtocol {
  import opened Graphs
  import opened Options
  import opened TokenRefresh

  /** The refresh call: none, posted with a token, or answered by the server. */
  datatype Call = Idle | Asked(token: string) | Answered(ok: bool, access: string, refresh: string)

  /** The client and the call; the server's store; the user each token was issued
      to; what the consume of each token answered; the tokens the client has
      presented; and counts over the run. */
  datatype Proto = Proto(
    client: Client,
    call: Call,
    store: Tokens,
    owner: map<string, string>,
    answers: map<string, Option<string>>,
    presented: seq<string>,
    sends: nat, replies: nat, refreshes: nat, serves: nat, settled: nat,
    queued: multiset<nat>, released: multiset<nat>)

  datatype Event =
    | Send(id: nat)
    | Succeed(id: nat)
    | Fail(id: nat)
    | Unauthorized(id: nat)
    | Serve(access: string, token: string, active: bool)
    | Deliver
    | Lose
    | Login(access: string, token: string, user: string)
    | Logout

  predicate Flies(p: Proto, r: nat) {
    r in p.client.status && p.client.status[r] == InFlight
  }

  predicate NewToken(p: Proto, t: string) {
    t != "" && t !in p.owner
  }

  /** Requests get fresh ids and the server issues fresh tokens. A refresh call
      can be lost at any time after it was posted. */
  predicate Enabled(p: Proto, e: Event) {
    match e
    case Send(r) => r !in p.client.status
    case Succeed(r) => Flies(p, r)
    case Fail(r) => Flies(p, r)
    case Unauthorized(r) => Flies(p, r)
    case Serve(_, t, _) => p.call.Asked? && NewToken(p, t)
    case Deliver => p.call.Answered? && p.call.ok
    case Lose => !p.call.Idle?
    case Login(_, t, _) => NewToken(p, t)
    case Logout => true
  }

  function Reply(p: Proto, r: nat, s: Status): Proto {
    p.(client := p.client.(status := p.client.status[r := s]), replies := p.replies + 1)
  }

  /** A 401: the request is rejected, queued, or becomes the leader of a refresh. */
  function React(p: Proto, r: nat): Proto {
    var c := OnUnauthorized(p.client, r);
    var q := p.(client := c, replies := p.replies + 1);
    if c.refreshing && !p.client.refreshing then
      q.(call := Asked(p.client.refresh), presented := p.presented + [p.client.refresh], refreshes := p.refreshes + 1)
    else if c.queue != p.client.queue then
      q.(queued := p.queued + multiset{r})
    else q
  }

  /** Issues a token: it is stored for its user. */
  function IssueTo(p: Proto, token: string, user: string): Proto {
    p.(store := Store(p.store, token, user), owner := p.owner[token := user])
  }

  /** The server consumes the presented token and then issues a new one to the
      user it stood for, unless there is none or the user is not active. */
  function Rotate(p: Proto, access: string, token: string, active: bool): Proto
    requires p.call.Asked?
  {
    var t := p.call.token;
    var (left, user) := Consume(p.store, t);
    var q := p.(serves := p.serves + 1, store := left, answers := p.answers[t := user]);
    if user.None? || !active then q.(call := Answered(false, "", ""))
    else IssueTo(q, token, user.value).(call := Answered(true, access, token))
  }

  function Settle(p: Proto, c: Client, resent: nat): Proto {
    p.(client := c, call := Idle, settled := p.settled + 1, sends := p.sends + resent,
       released := p.released + multiset(p.client.queue))
  }

  function Apply(p: Proto, e: Event): Proto
    requires Enabled(p, e)
  {
    match e
    case Send(r) => p.(client := p.client.(status := p.client.status[r := InFlight]), sends := p.sends + 1)
    case Succeed(r) => Reply(p, r, Resolved)
    case Fail(r) => Reply(p, r, Rejected)
    case Unauthorized(r) => React(p, r)
    case Serve(a, t, active) => Rotate(p, a, t, active)
    case Deliver => Settle(p, OnRefreshed(p.client, p.call.access, p.call.refresh),
                           1 + if p.call.access != "" then |p.client.queue| else 0)
    case Lose => Settle(p, OnRefreshFailed(p.client), 0)
    case Login(a, t, u) => IssueTo(p, t, u).(client := p.client.(access := a, refresh := t))
    case Logout => p.(client := p.client.(access := "", refresh := ""))
  }

  /** Events that are not possible where they stand in the sequence are skipped. */
  function Run(p: Proto, events: seq<Event>): Proto
    decreases |events|
  {
    if events == [] then p
    else Run(if Enabled(p, events[0]) then Apply(p, events[0]) else p, events[1..])
  }

  function Start(): Proto {
    Proto(Client(map[], {}, false, 0, [], "", ""), Idle, map[], map[], map[], [], 0, 0, 0, 0, 0, multiset{}, multiset{})
  }

  // ----- invariants -----

  /** One refresh at most, with its leader; a queue only behind a refresh. */
  ghost predicate SingleFlight(p: Proto) {
    var c := p.client;
    && (c.refreshing <==> !p.call.Idle?)
    && (c.refreshing ==> c.leader in c.status && c.status[c.leader] == Leading && c.leader in c.retried)
    && (forall r :: r in c.status && c.status[r] == Leading ==> c.refreshing && r == c.leader)
    && (!c.refreshing ==> c.queue == [])
    && Distinct(c.queue)
    && (forall r :: r in c.queue <==> r in c.status && c.status[r] == Waiting)
    && c.retried <= c.status.Keys
  }

  ghost function Flying(c: Client): set<nat> {
    FlyingIn(c.status)
  }

  ghost function FlyingIn(status: map<nat, Status>): set<nat> {
    set r | r in status && status[r] == InFlight
  }

  ghost predicate Counts(p: Proto) {
    var n := |p.client.status|;
    && p.refreshes == |p.client.retried|
    && p.refreshes == p.settled + (if p.client.refreshing then 1 else 0)
    && p.serves <= p.settled + (if p.call.Answered? then 1 else 0)
    && p.replies + |Flying(p.client)| == p.sends
    && p.sends <= n + n * p.settled
    && p.queued == p.released + multiset(p.client.queue)
  }

  /** Unless a refresh is under way, the stored token was never presented and is
      still accepted; so is the token under way until the server consumes it. */
  ghost predicate Rotating(p: Proto) {
    && Distinct(p.presented)
    && (forall t :: t in p.presented ==> t in p.owner)
    && "" !in p.owner
    && (forall t :: t in p.store ==> t in p.owner && p.store[t] == p.owner[t] && t !in p.answers)
    && (forall t :: t in p.answers ==> t in p.presented && p.answers[t] == Some(p.owner[t]))
    && (p.client.refresh != "" ==> p.client.refresh in p.owner)
    && (p.client.refresh != "" && !p.client.refreshing ==>
         p.client.refresh in p.store && p.client.refresh !in p.presented)
    && (p.call.Asked? ==> p.call.token in p.store && p.call.token in p.presented)
    && (p.call.Answered? && p.call.ok ==>
          p.call.refresh in p.store && p.call.refresh !in p.presented && p.call.refresh != "")
    && |p.answers| == p.serves
  }

  ghost predicate Inv(p: Proto) {
    SingleFlight(p) && Counts(p) && Rotating(p)
  }

  // ----- replies -----

  lemma FlyingDrops(c: Client, r: nat, s: Status)
    requires r in c.status && c.status[r] == InFlight && s != InFlight
    ensures Flying(c.(status := c.status[r := s])) == Flying(c) - {r}
    ensures |Flying(c.(status := c.status[r := s]))| == |Flying(c)| - 1
    ensures c.status[r := s].Keys == c.status.Keys && |c.status[r := s]| == |c.status|
  {
    assert r in Flying(c);
    assert c.status[r := s].Keys == c.status.Keys;
  }

  lemma FlyingGrows(c: Client, r: nat)
    requires r !in c.status
    ensures |Flying(c.(status := c.status[r := InFlight]))| == |Flying(c)| + 1
    ensures |c.status[r := InFlight]| == |c.status| + 1
  {
    var m := c.status[r := InFlight];
    assert m.Keys == c.status.Keys + {r};
    OneMoreFlying(c.status, r);
  }

  lemma OneMoreFlying(m: map<nat, Status>, r: nat)
    requires r !in m
    ensures |FlyingIn(m[r := InFlight])| == |FlyingIn(m)| + 1
  {
    assert FlyingIn(m[r := InFlight]) == FlyingIn(m) + {r};
  }

  lemma OneMoreRequest(n: nat, settled: nat)
    ensures n + n * settled + 1 <= (n + 1) + (n + 1) * settled
  {
    assert (n + 1) * settled == n * settled + settled;
  }

  lemma SendKeeps(p: Proto, r: nat)
    requires Inv(p) && r !in p.client.status
    ensures Inv(Apply(p, Send(r)))
  {
    FlyingGrows(p.client, r);
    OneMoreRequest(|p.client.status|, p.settled);
  }

  lemma ReplyKeeps(p: Proto, r: nat, s: Status)
    requires Inv(p) && Flies(p, r) && (s == Resolved || s == Rejected)
    ensures Inv(Reply(p, r, s))
  {
    FlyingDrops(p.client, r, s);
  }

  lemma WaitKeeps(p: Proto, r: nat)
    requires Inv(p) && Flies(p, r) && r !in p.client.retried && p.client.refresh != "" && p.client.refreshing
    ensures Inv(React(p, r))
  {
    FlyingDrops(p.client, r, Waiting);
  }

  lemma LeadKeeps(p: Proto, r: nat)
    requires Inv(p) && Flies(p, r) && r !in p.client.retried && p.client.refresh != "" && !p.client.refreshing
    ensures Inv(React(p, r))
  {
    FlyingDrops(p.client, r, Leading);
    LeadRotates(p, r);
  }

  /** The token presented was never presented before. */
  lemma LeadRotates(p: Proto, r: nat)
    requires Rotating(p) && r !in p.client.retried && p.client.refresh != "" && !p.client.refreshing
    ensures Rotating(React(p, r))
  {
  }

  lemma RejectKeeps(p: Proto, r: nat)
    requires Inv(p) && Flies(p, r) && (r in p.client.retried || p.client.refresh == "")
    ensures Inv(React(p, r))
  {
    FlyingDrops(p.client, r, Rejected);
  }

  lemma UnauthorizedKeeps(p: Proto, r: nat)
    requires Inv(p) && Flies(p, r)
    ensures Inv(React(p, r))
  {
    if r in p.client.retried || p.client.refresh == "" {
      RejectKeeps(p, r);
    } else if p.client.refreshing {
      WaitKeeps(p, r);
    } else {
      LeadKeeps(p, r);
    }
  }

  // ----- the refresh settles -----

  /** The statuses after waiters went to w and the leader to l. */
  function Freed(c: Client, w: Status, l: Status): map<nat, Status> {
    SetAll(c.status, c.queue, w)[c.leader := l]
  }

  lemma FreedShape(p: Proto, w: Status, l: Status)
    requires SingleFlight(p) && p.client.refreshing
    ensures Freed(p.client, w, l).Keys == p.client.status.Keys && |Freed(p.client, w, l)| == |p.client.status|
    ensures forall r :: r in p.client.status ==>
      Freed(p.client, w, l)[r] ==
        if r == p.client.leader then l else if r in p.client.queue then w else p.client.status[r]
  {
    assert Freed(p.client, w, l).Keys == p.client.status.Keys;
  }

  /** Waiters and leader are distinct requests. */
  lemma FreedCount(p: Proto)
    requires SingleFlight(p) && p.client.refreshing
    ensures var c := p.client; var q := set r | r in c.queue;
            |q| == |c.queue| && |q + {c.leader}| == |c.queue| + 1 <= |c.status| && Flying(c) !! (q + {c.leader})
  {
    var c := p.client;
    var q := set r | r in c.queue;
    DistinctCount(c.queue);
    assert c.leader !in q;
    SubsetCount(q + {c.leader}, c.status.Keys);
  }

  lemma DeliveredFlying(p: Proto, d: Client)
    requires SingleFlight(p) && p.client.refreshing && d.status == Freed(p.client, InFlight, InFlight)
    ensures |Flying(d)| == |Flying(p.client)| + |p.client.queue| + 1
  {
    var q := set r | r in p.client.queue;
    FreedCount(p);
    FreedFlying(p, d);
    BothCounted(Flying(p.client), q + {p.client.leader});
  }

  lemma FreedFlying(p: Proto, d: Client)
    requires SingleFlight(p) && p.client.refreshing && d.status == Freed(p.client, InFlight, InFlight)
    ensures Flying(d) == Flying(p.client) + ((set r | r in p.client.queue) + {p.client.leader})
  {
    FreedShape(p, InFlight, InFlight);
  }

  lemma BothCounted(a: set<nat>, b: set<nat>)
    requires a !! b
    ensures |a + b| == |a| + |b|
  {
  }

  lemma LeaderFlying(p: Proto, d: Client)
    requires SingleFlight(p) && p.client.refreshing && d.status == Freed(p.client, Rejected, InFlight)
    ensures |Flying(d)| == |Flying(p.client)| + 1
  {
    FreedShape(p, Rejected, InFlight);
    assert Flying(d) == Flying(p.client) + {p.client.leader};
  }

  lemma LostFlying(p: Proto, d: Client)
    requires SingleFlight(p) && p.client.refreshing && d.status == Freed(p.client, Rejected, Rejected)
    ensures |Flying(d)| == |Flying(p.client)|
  {
    FreedShape(p, Rejected, Rejected);
    assert Flying(d) == Flying(p.client);
  }

  lemma OneMoreRound(n: nat, settled: nat, k: nat)
    requires k <= n
    ensures n + n * settled + k <= n + n * (settled + 1)
  {
    assert n * (settled + 1) == n * settled + n;
  }

  lemma SettleShape(p: Proto, w: Status, l: Status, d: Client, resent: nat)
    requires SingleFlight(p) && p.client.refreshing && w in {InFlight, Rejected} && l in {InFlight, Rejected}
    requires d.status == Freed(p.client, w, l) && d.queue == [] && !d.refreshing && d.retried == p.client.retried
    ensures SingleFlight(Settle(p, d, resent))
  {
    FreedShape(p, w, l);
  }

  lemma SettleCounts(p: Proto, d: Client, resent: nat)
    requires SingleFlight(p) && Counts(p) && p.client.refreshing
    requires |d.status| == |p.client.status| && d.queue == [] && !d.refreshing && d.retried == p.client.retried
    requires |Flying(d)| == |Flying(p.client)| + resent && resent <= |d.status|
    ensures Counts(Settle(p, d, resent))
  {
    OneMoreRound(|d.status|, p.settled, resent);
  }

  lemma DeliverKeeps(p: Proto)
    requires Inv(p) && Enabled(p, Deliver)
    ensures Inv(Apply(p, Deliver))
  {
    var c := p.client;
    var d := OnRefreshed(c, p.call.access, p.call.refresh);
    FreedCount(p);
    if p.call.access != "" {
      FreedShape(p, InFlight, InFlight);
      DeliveredFlying(p, d);
      SettleShape(p, InFlight, InFlight, d, 1 + |c.queue|);
      SettleCounts(p, d, 1 + |c.queue|);
    } else {
      FreedShape(p, Rejected, InFlight);
      LeaderFlying(p, d);
      SettleShape(p, Rejected, InFlight, d, 1);
      SettleCounts(p, d, 1);
    }
  }

  lemma LoseKeeps(p: Proto)
    requires Inv(p) && Enabled(p, Lose)
    ensures Inv(Apply(p, Lose))
  {
    var d := OnRefreshFailed(p.client);
    FreedShape(p, Rejected, Rejected);
    LostFlying(p, d);
    SettleShape(p, Rejected, Rejected, d, 0);
    SettleCounts(p, d, 0);
  }

  lemma ServeKeeps(p: Proto, access: string, token: string, active: bool)
    requires Inv(p) && p.call.Asked? && NewToken(p, token)
    ensures Inv(Rotate(p, access, token, active))
  {
    ServeRotates(p, access, token, active);
    ServeCounts(p, access, token, active);
  }

  lemma ServeCounts(p: Proto, access: string, token: string, active: bool)
    requires SingleFlight(p) && Counts(p) && p.call.Asked?
    ensures SingleFlight(Rotate(p, access, token, active)) && Counts(Rotate(p, access, token, active))
  {
    assert Rotate(p, access, token, active).client == p.client;
  }

  /** The consume answers the owner. */
  lemma ConsumeRotates(p: Proto)
    requires Rotating(p) && p.call.Asked?
    ensures var t := p.call.token;
      && Consume(p.store, t).1 == Some(p.owner[t])
      && Rotating(p.(serves := p.serves + 1, store := Consume(p.store, t).0,
                     answers := p.answers[t := Some(p.owner[t])], call := Answered(false, "", "")))
  {
    var t := p.call.token;
    OneMoreAnswer(p.answers, t, Some(p.owner[t]));
  }

  lemma OneMoreAnswer(m: map<string, Option<string>>, t: string, x: Option<string>)
    requires t !in m
    ensures |m[t := x]| == |m| + 1
  {
    assert m[t := x].Keys == m.Keys + {t};
  }

  lemma IssueRotates(p: Proto, token: string, user: string)
    requires Rotating(p) && NewToken(p, token)
    ensures Rotating(IssueTo(p, token, user))
  {
  }

  lemma ServeRotates(p: Proto, access: string, token: string, active: bool)
    requires Rotating(p) && p.call.Asked? && NewToken(p, token)
    ensures Rotating(Rotate(p, access, token, active))
  {
    ConsumeRotates(p);
    var t := p.call.token;
    var q := p.(serves := p.serves + 1, store := Consume(p.store, t).0, answers := p.answers[t := Some(p.owner[t])],
                call := Answered(false, "", ""));
    if active {
      IssueRotates(q, token, p.owner[t]);
      var i := IssueTo(q, token, p.owner[t]);
      assert Rotate(p, access, token, active) == i.(call := Answered(true, access, token));
    } else {
      assert Rotate(p, access, token, active) == q;
    }
  }

  lemma LoginKeeps(p: Proto, access: string, token: string, user: string)
    requires Inv(p) && NewToken(p, token)
    ensures Inv(Apply(p, Login(access, token, user)))
  {
    IssueRotates(p, token, user);
  }

  lemma LogoutKeeps(p: Proto)
    requires Inv(p)
    ensures Inv(Apply(p, Logout))
  {
    assert Flying(Apply(p, Logout).client) == Flying(p.client);
  }

  lemma StepKeeps(p: Proto, e: Event)
    requires Inv(p) && Enabled(p, e)
    ensures Inv(Apply(p, e))
  {
    match e
    case Send(r) => SendKeeps(p, r);
    case Succeed(r) => ReplyKeeps(p, r, Resolved);
    case Fail(r) => ReplyKeeps(p, r, Rejected);
    case Unauthorized(r) => UnauthorizedKeeps(p, r);
    case Deliver => DeliverKeeps(p);
    case Lose => LoseKeeps(p);
    case Serve(a, t, active) => ServeKeeps(p, a, t, active);
    case Login(a, t, u) => LoginKeeps(p, a, t, u);
    case Logout => LogoutKeeps(p);
  }

  lemma {:induction false} RunKeeps(p: Proto, events: seq<Event>)
    requires Inv(p)
    ensures Inv(Run(p, events))
    decreases |events|
  {
    if events != [] {
      if Enabled(p, events[0]) { StepKeeps(p, events[0]); }
      RunKeeps(if Enabled(p, events[0]) then Apply(p, events[0]) else p, events[1..]);
    }
  }

  // ----- results over all runs -----

  lemma RunsKeep(events: seq<Event>)
    ensures Inv(Run(Start(), events))
  {
    RunKeeps(Start(), events);
  }

  /** In whatever order requests fail, at most one refresh is under way, the
      queue is empty whenever none is, and every time a request was queued it has
      been released exactly once or is queued now. */
  lemma OneRefreshAtATime(events: seq<Event>)
    ensures var p := Run(Start(), events);
      && p.settled <= p.refreshes <= p.settled + 1
      && (p.refreshes == p.settled <==> p.call.Idle?)
      && (p.call.Idle? ==> p.client.queue == [])
      && Distinct(p.client.queue)
      && (forall r :: p.queued[r] == p.released[r] + if r in p.client.queue then 1 else 0)
  {
    RunsKeep(events);
    var q := Run(Start(), events).client.queue;
    forall r ensures multiset(q)[r] == if r in q then 1 else 0 { OnceInQueue(q, r); }
  }

  lemma {:induction false} OnceInQueue(q: seq<nat>, r: nat)
    requires Distinct(q)
    ensures multiset(q)[r] == if r in q then 1 else 0
  {
    if q != [] {
      OnceInQueue(q[1..], r);
      assert q == [q[0]] + q[1..];
    }
  }

  /** When a refresh settles, every waiter is resumed or rejected with the
      outcome, the leader follows, and no other request is touched. */
  lemma SettlingReleasesAll(events: seq<Event>, e: Event)
    requires var p := Run(Start(), events); Enabled(p, e) && (e.Deliver? || e.Lose?)
    ensures var p := Run(Start(), events); var q := Apply(p, e);
      && (forall r :: r in p.client.queue ==>
            && r in q.client.status
            && q.client.status[r] == if e.Deliver? && p.call.access != "" then InFlight else Rejected)
      && q.client.leader in q.client.status
      && q.client.status[q.client.leader] == (if e.Deliver? then InFlight else Rejected)
      && (forall r :: r in p.client.status && r !in p.client.queue && r != p.client.leader ==>
            r in q.client.status && q.client.status[r] == p.client.status[r])
  {
    RunsKeep(events);
    var p := Run(Start(), events);
    if e.Deliver? {
      FreedShape(p, if p.call.access != "" then InFlight else Rejected, InFlight);
    } else {
      FreedShape(p, Rejected, Rejected);
    }
  }

  // ----- what each event means for the requests of a run -----

  lemma {:induction false} RunThen(p: Proto, events: seq<Event>, more: seq<Event>)
    ensures Run(p, events + more) == Run(Run(p, events), more)
    decreases |events|
  {
    if events == [] {
      assert events + more == more;
    } else {
      assert (events + more)[0] == events[0] && (events + more)[1..] == events[1..] + more;
      RunThen(if Enabled(p, events[0]) then Apply(p, events[0]) else p, events[1..], more);
    }
  }

  lemma RunOne(p: Proto, e: Event)
    ensures Run(p, [e]) == if Enabled(p, e) then Apply(p, e) else p
  {
    assert [e][1..] == [];
  }

  lemma OneMoreEvent(events: seq<Event>, e: Event)
    ensures var p := Run(Start(), events);
      Run(Start(), events + [e]) == if Enabled(p, e) then Apply(p, e) else p
  {
    RunThen(Start(), events, [e]);
    RunOne(Run(Start(), events), e);
  }

  ghost predicate Has(p: Proto, r: nat, s: Status) {
    r in p.client.status && p.client.status[r] == s
  }

  /** Every request but r is where it was. */
  ghost predicate OthersKept(p: Proto, q: Proto, r: nat) {
    q.client.status - {r} == p.client.status - {r}
  }

  /** Rejected exactly when it was retried before or no refresh token is stored;
      without a token the session is dropped. */
  ghost predicate RejectedOr(p: Proto, r: nat, q: Proto) {
    && (Has(q, r, Rejected) <==> r in p.client.retried || p.client.refresh == "")
    && q.client.refresh == p.client.refresh
    && q.client.access == if r !in p.client.retried && p.client.refresh == "" then "" else p.client.access
  }

  /** Otherwise put at the end of the queue exactly while a refresh is under way. */
  ghost predicate WaitsOr(p: Proto, r: nat, q: Proto) {
    && (Has(q, r, Waiting) <==> !Has(q, r, Rejected) && !p.call.Idle?)
    && q.client.queue == p.client.queue + (if Has(q, r, Waiting) then [r] else [])
    && q.queued == p.queued + (if Has(q, r, Waiting) then multiset{r} else multiset{})
  }

  /** Otherwise the leader of a refresh with the stored token. */
  ghost predicate LeadsOr(p: Proto, r: nat, q: Proto) {
    && (Has(q, r, Leading) <==> !Has(q, r, Rejected) && p.call.Idle?)
    && (Has(q, r, Leading) ==>
         && q.client.leader == r && q.client.retried == p.client.retried + {r}
         && q.call == Asked(p.client.refresh) && q.presented == p.presented + [p.client.refresh])
    && (!Has(q, r, Leading) ==>
         q.client.retried == p.client.retried && q.call == p.call && q.presented == p.presented)
  }

  lemma ReactOutcome(p: Proto, r: nat)
    requires Flies(p, r) && (p.client.refreshing <==> !p.call.Idle?)
    ensures var q := React(p, r); OthersKept(p, q, r) && RejectedOr(p, r, q) && WaitsOr(p, r, q) && LeadsOr(p, r, q)
  {
    var q := React(p, r);
    assert q.client.status == p.client.status[r := q.client.status[r]];
    if !p.client.refreshing || r in p.client.retried || p.client.refresh == "" {
      assert q.client.queue == p.client.queue && p.client.queue + [] == p.client.queue;
    }
  }

  /** What a 401 does in any run. */
  lemma UnauthorizedOutcome(events: seq<Event>, r: nat)
    requires Has(Run(Start(), events), r, InFlight)
    ensures var p := Run(Start(), events); var q := Run(Start(), events + [Unauthorized(r)]);
      OthersKept(p, q, r) && RejectedOr(p, r, q) && WaitsOr(p, r, q) && LeadsOr(p, r, q)
  {
    RunsKeep(events);
    OneMoreEvent(events, Unauthorized(r));
    ReactOutcome(Run(Start(), events), r);
  }

  lemma StillWaiting(p: Proto, e: Event, r: nat)
    requires SingleFlight(p) && Has(p, r, Waiting) && Enabled(p, e) && Apply(p, e).settled == p.settled
    ensures Has(Apply(p, e), r, Waiting)
  {
    if e.Unauthorized? { ReactOutcome(p, e.id); }
  }

  /** While no refresh settles, a queued request stays queued. */
  lemma {:induction false} StaysWaiting(p: Proto, more: seq<Event>, r: nat)
    requires Inv(p) && Has(p, r, Waiting) && Run(p, more).settled == p.settled
    ensures Has(Run(p, more), r, Waiting)
    decreases |more|
  {
    if more != [] {
      var next := if Enabled(p, more[0]) then Apply(p, more[0]) else p;
      SettledGrows(p, [more[0]]);
      SettledGrows(next, more[1..]);
      if Enabled(p, more[0]) {
        StepKeeps(p, more[0]);
        RunOne(p, more[0]);
        StillWaiting(p, more[0], r);
      }
      StaysWaiting(next, more[1..], r);
    }
  }

  lemma {:induction false} SettledGrows(p: Proto, more: seq<Event>)
    ensures Run(p, more).settled >= p.settled
    decreases |more|
  {
    if more != [] { SettledGrows(if Enabled(p, more[0]) then Apply(p, more[0]) else p, more[1..]); }
  }

  /** Whatever happens meanwhile, a request that met a 401 during a refresh is
      sent again when the refresh delivers an access token, and rejected when it
      delivers none or is lost. */
  lemma QueuedThenSettled(events: seq<Event>, r: nat, more: seq<Event>, e: Event)
    requires var p := Run(Start(), events);
      Has(p, r, InFlight) && r !in p.client.retried && p.client.refresh != "" && !p.call.Idle?
    requires var w := Run(Start(), events + [Unauthorized(r)] + more);
      w.settled == Run(Start(), events).settled && Enabled(w, e) && (e.Deliver? || e.Lose?)
    ensures var w := Run(Start(), events + [Unauthorized(r)] + more);
      Has(Run(Start(), events + [Unauthorized(r)] + more + [e]), r,
          if e.Deliver? && w.call.access != "" then InFlight else Rejected)
  {
    var start := events + [Unauthorized(r)];
    UnauthorizedOutcome(events, r);
    OneMoreEvent(events, Unauthorized(r));
    RunsKeep(start);
    RunThen(Start(), start, more);
    StaysWaiting(Run(Start(), start), more, r);
    RunsKeep(start + more);
    SettlingReleasesAll(start + more, e);
    OneMoreEvent(start + more, e);
  }

  /** Other replies: a success resolves the request and a failure rejects it. */
  lemma ReplyOutcome(events: seq<Event>, r: nat, ok: bool)
    requires Has(Run(Start(), events), r, InFlight)
    ensures var p := Run(Start(), events); var q := Run(Start(), events + [if ok then Succeed(r) else Fail(r)]);
      Has(q, r, if ok then Resolved else Rejected) && OthersKept(p, q, r)
      && q.client == p.client.(status := q.client.status) && q.call == p.call && q.store == p.store
  {
    OneMoreEvent(events, if ok then Succeed(r) else Fail(r));
  }

  /** The answer to a posted refresh: its token is spent, and the same user gets
      a new one exactly when the user is active. */
  lemma ServeOutcome(events: seq<Event>, access: string, token: string, active: bool)
    requires var p := Run(Start(), events); p.call.Asked? && NewToken(p, token)
    ensures var p := Run(Start(), events); var q := Run(Start(), events + [Serve(access, token, active)]);
      && p.call.token in p.owner && q.client == p.client
      && q.call == (if active then Answered(true, access, token) else Answered(false, "", ""))
      && q.store == (if active then (p.store - {p.call.token})[token := p.owner[p.call.token]]
                     else p.store - {p.call.token})
  {
    RunsKeep(events);
    OneMoreEvent(events, Serve(access, token, active));
  }

  /** Delivered tokens are stored; a lost refresh drops the session. */
  lemma SettledSession(events: seq<Event>, e: Event)
    requires var p := Run(Start(), events); Enabled(p, e) && (e.Deliver? || e.Lose?)
    ensures var p := Run(Start(), events); var q := Run(Start(), events + [e]);
      && q.call == Idle && q.client.queue == []
      && q.client.access == (if e.Deliver? then p.call.access else "")
      && q.client.refresh == (if e.Deliver? then p.call.refresh else "")
  {
    OneMoreEvent(events, e);
  }

  /** A login stores the tokens it was given and a logout drops them; neither
      touches a request or a refresh under way. */
  lemma SessionOutcome(events: seq<Event>, access: string, token: string, user: string)
    requires NewToken(Run(Start(), events), token)
    ensures var p := Run(Start(), events); var q := Run(Start(), events + [Login(access, token, user)]);
      && q.client == p.client.(access := access, refresh := token) && q.call == p.call
      && q.store == p.store[token := user]
    ensures var p := Run(Start(), events); var q := Run(Start(), events + [Logout]);
      q.client == p.client.(access := "", refresh := "") && q.call == p.call && q.store == p.store
  {
    OneMoreEvent(events, Login(access, token, user));
    OneMoreEvent(events, Logout);
  }

  /** No request is forgotten: with nothing on the wire every request has settled. */
  lemma NoneForgotten(events: seq<Event>)
    requires var p := Run(Start(), events); p.call.Idle? && forall r :: !Flies(p, r)
    ensures var p := Run(Start(), events);
            forall r :: r in p.client.status ==> p.client.status[r] == Resolved || p.client.status[r] == Rejected
  {
    RunsKeep(events);
    var p := Run(Start(), events);
    forall r | r in p.client.status ensures p.client.status[r] == Resolved || p.client.status[r] == Rejected {
      assert !Flies(p, r);
    }
  }

  lemma SquareBound(n: nat, settled: nat)
    requires settled <= n
    ensures n * settled <= n * n
  {
    var k: nat := n - settled;
    assert n * n == n * settled + n * k;
  }

  /** N requests cause at most N refreshes and at most N + N*N sends. */
  lemma Bounds(events: seq<Event>)
    ensures var p := Run(Start(), events); var n := |p.client.status|;
      && p.refreshes == |p.client.retried| <= n
      && p.replies <= p.sends <= n + n * n
  {
    RunsKeep(events);
    var p := Run(Start(), events);
    SubsetCount(p.client.retried, p.client.status.Keys);
    SquareBound(|p.client.status|, p.settled);
  }

  /** Events other than logins and logouts that took effect. */
  function Steps(p: Proto, events: seq<Event>): nat
    decreases |events|
  {
    if events == [] then 0
    else if !Enabled(p, events[0]) then Steps(p, events[1..])
    else (if events[0].Login? || events[0].Logout? then 0 else 1) + Steps(Apply(p, events[0]), events[1..])
  }

  function Work(p: Proto): nat {
    |p.client.status| + p.replies + p.serves + p.settled
  }

  lemma SameRequests(c: Client, r: nat)
    requires r in c.status
    ensures OnUnauthorized(c, r).status.Keys == c.status.Keys && |OnUnauthorized(c, r).status| == |c.status|
  {
    assert OnUnauthorized(c, r).status.Keys == c.status.Keys;
  }

  lemma WorkStep(p: Proto, e: Event)
    requires Inv(p) && Enabled(p, e)
    ensures Work(Apply(p, e)) == Work(p) + if e.Login? || e.Logout? then 0 else 1
  {
    RequestsAfter(p, e);
    CountersAfter(p, e);
  }

  lemma CountersAfter(p: Proto, e: Event)
    requires Enabled(p, e)
    ensures var q := Apply(p, e);
      q.replies + q.serves + q.settled == p.replies + p.serves + p.settled
        + if e.Send? || e.Login? || e.Logout? then 0 else 1
  {
  }

  lemma RequestsAfter(p: Proto, e: Event)
    requires Inv(p) && Enabled(p, e)
    ensures |Apply(p, e).client.status| == |p.client.status| + if e.Send? then 1 else 0
  {
    match e
    case Send(r) => FlyingGrows(p.client, r);
    case Succeed(r) => FlyingDrops(p.client, r, Resolved);
    case Fail(r) => FlyingDrops(p.client, r, Rejected);
    case Unauthorized(r) => SameRequests(p.client, r);
    case Deliver => SameAfterRefresh(p, e);
    case Lose => SameAfterRefresh(p, e);
    case _ =>
  }

  lemma SameAfterRefresh(p: Proto, e: Event)
    requires Inv(p) && Enabled(p, e) && (e.Deliver? || e.Lose?)
    ensures |Apply(p, e).client.status| == |p.client.status|
  {
    if e.Deliver? {
      FreedShape(p, if p.call.access != "" then InFlight else Rejected, InFlight);
    } else {
      FreedShape(p, Rejected, Rejected);
    }
  }

  lemma {:induction false} WorkRun(p: Proto, events: seq<Event>)
    requires Inv(p)
    ensures Work(Run(p, events)) == Work(p) + Steps(p, events)
    decreases |events|
  {
    if events != [] {
      if Enabled(p, events[0]) {
        StepKeeps(p, events[0]);
        WorkStep(p, events[0]);
        WorkRun(Apply(p, events[0]), events[1..]);
      } else {
        WorkRun(p, events[1..]);
      }
    }
  }

  /** The retry protocol terminates: apart from logins and logouts, a run over N
      requests takes at most N*N + 4*N steps. */
  lemma Terminates(events: seq<Event>)
    ensures var n := |Run(Start(), events).client.status|; Steps(Start(), events) <= n * n + 4 * n
  {
    WorkRun(Start(), events);
    Bounds(events);
    RunsKeep(events);
  }

  /** Each refresh token is presented at most once, and consuming it always
      answers the user it was issued to: over the run so far, and for the token
      under way. */
  lemma RotationNeverReused(events: seq<Event>)
    ensures var p := Run(Start(), events);
      && Distinct(p.presented) && |p.presented| == p.refreshes
      && |p.answers| == p.serves
      && (forall t :: t in p.answers ==> t in p.presented && t in p.owner && p.answers[t] == Some(p.owner[t]))
      && (p.call.Asked? ==> p.call.token in p.owner && Consume(p.store, p.call.token).1 == Some(p.owner[p.call.token]))
  {
    RunsKeep(events);
    PresentedPerRefresh(Start(), events);
  }

  lemma {:induction false} PresentedPerRefresh(p: Proto, events: seq<Event>)
    ensures |Run(p, events).presented| - |p.presented| == Run(p, events).refreshes - p.refreshes
    decreases |events|
  {
    if events != [] {
      PresentedPerRefresh(if Enabled(p, events[0]) then Apply(p, events[0]) else p, events[1..]);
    }
  }
}
