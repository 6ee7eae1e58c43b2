/** One-time SSE tickets: a store that purges expired entries on every call,
    against one that never purges, over whole histories. */
module SseTickets {
  import opened Options

  datatype Entry = Entry(user: string, expires: real)

  type Store = map<string, Entry>

  const TTL_SECONDS: real := 60.0

  function Purged(m: Store, now: real): Store {
    map t | t in m && m[t].expires > now :: m[t]
  }

  /** The module-level dictionary. Clock readings and new tickets are arguments. */
  class TicketStore {
    var tickets: Store

    constructor ()
      ensures tickets == map[]
    {
      tickets := map[];
    }

    /** Collects the expired tickets, then deletes them one by one. */
    method PurgeExpired(now: real)
      modifies this
      ensures tickets == Purged(old(tickets), now)
    {
      var expired := set t | t in tickets && tickets[t].expires <= now;
      ghost var all := expired;
      while expired != {}
        invariant expired <= all
        invariant tickets == old(tickets) - (all - expired)
        decreases expired
      {
        var t :| t in expired;
        tickets, expired := tickets - {t}, expired - {t};
      }
    }

    method IssueTicket(ticket: string, user: string, now: real, ttl: real := TTL_SECONDS)
      modifies this
      ensures tickets == Step(old(tickets), Issue(ticket, user, ttl, now)).0
    {
      PurgeExpired(now);
      tickets := tickets[ticket := Entry(user, now + ttl)];
    }

    /** The ticket is gone after the first attempt, whatever the answer. */
    method ConsumeTicket(ticket: string, now: real) returns (user: Option<string>)
      modifies this
      ensures (tickets, user) == Step(old(tickets), Consume(ticket, now))
    {
      PurgeExpired(now);
      var entry := if ticket in tickets then Some(tickets[ticket]) else None;
      tickets := tickets - {ticket};
      if entry.None? || entry.value.expires <= now {
        return None;
      }
      return Some(entry.value.user);
    }

    method ResetTicketStore()
      modifies this
      ensures tickets == Step(old(tickets), Reset).0
    {
      tickets := map[];
    }
  }

  // ----- histories -----

  datatype Op =
    | Issue(ticket: string, user: string, ttl: real, now: real)
    | Consume(ticket: string, now: real)
    | Reset

  /** The purging store: new contents and the answer. */
  function Step(m: Store, op: Op): (Store, Option<string>) {
    match op
    case Issue(t, u, ttl, now) => (Purged(m, now)[t := Entry(u, now + ttl)], None)
    case Consume(t, now) =>
      var p := Purged(m, now);
      (p - {t}, if t in p then Some(p[t].user) else None)
    case Reset => (map[], None)
  }

  /** A store that never purges and looks at the expiry only on consumption. */
  function PlainStep(m: Store, op: Op): (Store, Option<string>) {
    match op
    case Issue(t, u, ttl, now) => (m[t := Entry(u, now + ttl)], None)
    case Consume(t, now) => (m - {t}, if t in m && m[t].expires > now then Some(m[t].user) else None)
    case Reset => (map[], None)
  }

  function After(ops: seq<Op>): Store {
    if ops == [] then map[] else Step(After(ops[..|ops| - 1]), ops[|ops| - 1]).0
  }

  function PlainAfter(ops: seq<Op>): Store {
    if ops == [] then map[] else PlainStep(PlainAfter(ops[..|ops| - 1]), ops[|ops| - 1]).0
  }

  /** The answer to the i-th operation of a history. */
  function Answer(ops: seq<Op>, i: nat): Option<string>
    requires i < |ops|
  {
    Step(After(ops[..i]), ops[i]).1
  }

  function PlainAnswer(ops: seq<Op>, i: nat): Option<string>
    requires i < |ops|
  {
    PlainStep(PlainAfter(ops[..i]), ops[i]).1
  }

  // ----- what the store holds -----

  /** The j-th operation issued t with entry e, and up to k nothing issued it
      again, used it or reset the store. */
  ghost predicate HeldSince(ops: seq<Op>, j: nat, k: nat, t: string, e: Entry) {
    && j < k <= |ops|
    && ops[j].Issue? && ops[j].ticket == t && e == Entry(ops[j].user, ops[j].now + ops[j].ttl)
    && (forall i :: j < i < k ==> !ops[i].Reset? && ops[i].ticket != t)
  }

  /** No operation between j and k read a time at or after the expiry. */
  ghost predicate Unseen(ops: seq<Op>, j: nat, k: nat, e: Entry)
    requires k <= |ops|
  {
    forall i :: j < i < k && !ops[i].Reset? ==> ops[i].now < e.expires
  }

  lemma {:induction false} StoredSince(ops: seq<Op>, k: nat, t: string) returns (j: nat)
    requires k <= |ops| && t in After(ops[..k])
    ensures HeldSince(ops, j, k, t, After(ops[..k])[t])
    decreases k
  {
    var op := ops[k - 1];
    assert ops[..k][..k - 1] == ops[..k - 1] && ops[..k][k - 1] == op;
    if op.Issue? && op.ticket == t {
      j := k - 1;
    } else {
      j := StoredSince(ops, k - 1, t);
    }
  }

  lemma {:induction false} PlainStoredSince(ops: seq<Op>, k: nat, t: string) returns (j: nat)
    requires k <= |ops| && t in PlainAfter(ops[..k])
    ensures HeldSince(ops, j, k, t, PlainAfter(ops[..k])[t])
    decreases k
  {
    var op := ops[k - 1];
    assert ops[..k][..k - 1] == ops[..k - 1] && ops[..k][k - 1] == op;
    if op.Issue? && op.ticket == t {
      j := k - 1;
    } else {
      j := PlainStoredSince(ops, k - 1, t);
    }
  }

  /** A held ticket is in the plain store, and in the purging one exactly while
      no clock reading has reached its expiry. */
  lemma {:induction false} Holds(ops: seq<Op>, j: nat, k: nat, t: string, e: Entry)
    requires HeldSince(ops, j, k, t, e)
    ensures t in PlainAfter(ops[..k]) && PlainAfter(ops[..k])[t] == e
    ensures t in After(ops[..k]) <==> Unseen(ops, j, k, e)
    ensures t in After(ops[..k]) ==> After(ops[..k])[t] == e
    decreases k
  {
    assert ops[..k][..k - 1] == ops[..k - 1] && ops[..k][k - 1] == ops[k - 1];
    if j < k - 1 { Holds(ops, j, k - 1, t, e); }
  }

  // ----- the answers, whatever the clock does -----

  /** The answer to every use of a held ticket: its user, exactly when neither
      this reading nor any since the issue has reached the expiry. */
  lemma AnswerExactly(ops: seq<Op>, j: nat, i: nat, e: Entry)
    requires i < |ops| && ops[i].Consume? && HeldSince(ops, j, i, ops[i].ticket, e)
    ensures Answer(ops, i) == if ops[i].now < e.expires && Unseen(ops, j, i, e) then Some(e.user) else None
    ensures PlainAnswer(ops, i) == if ops[i].now < e.expires then Some(e.user) else None
  {
    Holds(ops, j, i, ops[i].ticket, e);
  }

  /** The ticket the i-th operation uses has not expired, and yet the reading of
      the k-th operation had it purged. */
  ghost predicate PurgedBy(ops: seq<Op>, j: nat, k: nat, i: nat, e: Entry) {
    && i < |ops| && ops[i].Consume? && HeldSince(ops, j, i, ops[i].ticket, e)
    && j < k < i && ops[i].now < e.expires <= ops[k].now
  }

  /** For every history and every clock: purging shows in an answer exactly when
      an earlier reading had reached the expiry of a ticket used before it. */
  lemma AgreeExactly(ops: seq<Op>, i: nat)
    requires i < |ops|
    ensures Answer(ops, i) == PlainAnswer(ops, i) <==> !exists j, k, e :: PurgedBy(ops, j, k, i, e)
  {
    if ops[i].Consume? {
      var t := ops[i].ticket;
      if t in PlainAfter(ops[..i]) {
        var j := PlainStoredSince(ops, i, t);
        AgreeOnHeld(ops, j, i, PlainAfter(ops[..i])[t]);
      } else {
        forall j, k, e ensures !PurgedBy(ops, j, k, i, e) { NotHeld(ops, j, i, t, e); }
        if t in After(ops[..i]) {
          var j := StoredSince(ops, i, t);
          NotHeld(ops, j, i, t, After(ops[..i])[t]);
        }
      }
    }
  }

  lemma NotHeld(ops: seq<Op>, j: nat, i: nat, t: string, e: Entry)
    requires i <= |ops| && t !in PlainAfter(ops[..i])
    ensures !HeldSince(ops, j, i, t, e)
  {
    if HeldSince(ops, j, i, t, e) { Holds(ops, j, i, t, e); }
  }

  lemma AgreeOnHeld(ops: seq<Op>, j: nat, i: nat, e: Entry)
    requires i < |ops| && ops[i].Consume? && HeldSince(ops, j, i, ops[i].ticket, e)
    ensures Answer(ops, i) == PlainAnswer(ops, i) <==> !exists h, k, f :: PurgedBy(ops, h, k, i, f)
    ensures Answer(ops, i) == PlainAnswer(ops, i) <==> (ops[i].now < e.expires ==> Unseen(ops, j, i, e))
  {
    AnswerExactly(ops, j, i, e);
    if ops[i].now < e.expires && !Unseen(ops, j, i, e) {
      var k :| j < k < i && !ops[k].Reset? && ops[k].now >= e.expires;
      assert PurgedBy(ops, j, k, i, e);
    }
    forall h, k, f | PurgedBy(ops, h, k, i, f) ensures ops[i].now < e.expires && !Unseen(ops, j, i, e) {
      assert h == j;
    }
  }

  /** A ticket issued with the default lifetime is good for sixty seconds. */
  lemma SixtySeconds(ops: seq<Op>, j: nat, i: nat)
    requires i < |ops| && ops[i].Consume? && j < i && ops[j].Issue? && ops[j].ttl == TTL_SECONDS
    requires HeldSince(ops, j, i, ops[i].ticket, Entry(ops[j].user, ops[j].now + ops[j].ttl))
    ensures Answer(ops, i) ==
      if forall k :: j < k <= i ==> ops[k].now < ops[j].now + 60.0 then Some(ops[j].user) else None
  {
    AnswerExactly(ops, j, i, Entry(ops[j].user, ops[j].now + ops[j].ttl));
  }

  // ----- a clock that does not go back -----

  /** Clock readings never go back. */
  ghost predicate SteadyClock(ops: seq<Op>) {
    forall i, j :: 0 <= i < j < |ops| && !ops[i].Reset? && !ops[j].Reset? ==> ops[i].now <= ops[j].now
  }

  /** Under a steady clock purging is invisible. */
  lemma PurgingIsInvisible(ops: seq<Op>, i: nat)
    requires SteadyClock(ops) && i < |ops|
    ensures Answer(ops, i) == PlainAnswer(ops, i)
  {
    AgreeExactly(ops, i);
  }

  /** A clock that goes back can show it. */
  lemma ClockGoesBack()
    ensures var ops := [Issue("t", "u", 60.0, 0.0), Issue("s", "u", 60.0, 100.0), Consume("t", 50.0)];
            Answer(ops, 2) == None && PlainAnswer(ops, 2) == Some("u")
  {
    var ops := [Issue("t", "u", 60.0, 0.0), Issue("s", "u", 60.0, 100.0), Consume("t", 50.0)];
    var e := Entry("u", 60.0);
    assert HeldSince(ops, 0, 2, "t", e);
    assert !Unseen(ops, 0, 2, e) by { assert ops[1].now >= e.expires; }
    AnswerExactly(ops, 0, 2, e);
  }

  // ----- single use -----

  /** Every ticket is issued at most once. */
  ghost predicate FreshTickets(ops: seq<Op>) {
    forall i, j :: 0 <= i < j < |ops| && ops[i].Issue? && ops[j].Issue? ==> ops[i].ticket != ops[j].ticket
  }

  /** A ticket succeeds only for the user it was issued to and before it expires. */
  lemma SuccessMeansValid(ops: seq<Op>, i: nat) returns (j: nat)
    requires i < |ops| && Answer(ops, i).Some?
    ensures ops[i].Consume?
    ensures j < i && ops[j].Issue? && ops[j].ticket == ops[i].ticket
    ensures Answer(ops, i) == Some(ops[j].user) && ops[i].now < ops[j].now + ops[j].ttl
    ensures forall k :: j < k < i ==> !ops[k].Reset? && ops[k].ticket != ops[i].ticket
  {
    var t := ops[i].ticket;
    j := StoredSince(ops, i, t);
  }

  /** With fresh tickets, no ticket succeeds twice. */
  lemma SingleUse(ops: seq<Op>, i: nat, k: nat)
    requires FreshTickets(ops) && i < k < |ops| && ops[i].Consume? && ops[k].Consume? && ops[i].ticket == ops[k].ticket
    ensures Answer(ops, i).None? || Answer(ops, k).None?
  {
    if Answer(ops, i).Some? && Answer(ops, k).Some? {
      var a := SuccessMeansValid(ops, i);
      var b := SuccessMeansValid(ops, k);
    }
  }

  /** With fresh tickets, none issued before a reset succeeds after it. */
  lemma ResetForgets(ops: seq<Op>, j: nat, r: nat, i: nat)
    requires FreshTickets(ops) && j < r < i < |ops| && ops[j].Issue? && ops[r].Reset? && ops[i].Consume?
    requires ops[j].ticket == ops[i].ticket
    ensures Answer(ops, i) == None
  {
    if Answer(ops, i).Some? {
      var h := SuccessMeansValid(ops, i);
    }
  }
}
