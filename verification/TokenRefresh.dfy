/** The response interceptor's refresh protocol: one refresh in flight, waiters
    queued behind it, per-request retry flags, and rotating refresh tokens. */
module TokenRefresh {
  import opened Options

  /** A request is on the wire, queued behind a refresh, leading the refresh, or settled. */
  datatype Status = InFlight | Waiting | Leading | Resolved | Rejected

  /** What the interceptor keeps. Stored tokens are empty when absent. */
  datatype Client = Client(
    status: map<nat, Status>,
    retried: set<nat>,
    refreshing: bool,
    leader: nat,
    queue: seq<nat>,
    access: string,
    refresh: string)

  // ----- the interceptor's reactions -----

  function SetAll(status: map<nat, Status>, rs: seq<nat>, to: Status): map<nat, Status> {
    map r | r in status.Keys + (set q | q in rs) :: if r in rs then to else status[r]
  }

  /** A request came back with 401. */
  function OnUnauthorized(c: Client, r: nat): Client {
    if r in c.retried then
      c.(status := c.status[r := Rejected])
    else if c.refresh == "" then
      c.(status := c.status[r := Rejected], access := "", refresh := "")
    else if c.refreshing then
      c.(status := c.status[r := Waiting], queue := c.queue + [r])
    else
      c.(status := c.status[r := Leading], retried := c.retried + {r}, refreshing := true, leader := r)
  }

  /** The refresh succeeded: waiters are resent (or rejected if no access token
      came back), then the leader is resent. */
  function OnRefreshed(c: Client, access: string, refresh: string): Client {
    var released := SetAll(c.status, c.queue, if access != "" then InFlight else Rejected);
    c.(status := released[c.leader := InFlight], queue := [], refreshing := false, access := access, refresh := refresh)
  }

  /** The refresh failed: waiters and leader are rejected and the session is dropped. */
  function OnRefreshFailed(c: Client): Client {
    var released := SetAll(c.status, c.queue, Rejected);
    c.(status := released[c.leader := Rejected], queue := [], refreshing := false, access := "", refresh := "")
  }

  /** The module state of the interceptor. */
  class Interceptor {
    var status: map<nat, Status>
    var retried: set<nat>
    var refreshing: bool
    var leader: nat
    var queue: seq<nat>
    var access: string
    var refresh: string

    ghost function View(): Client
      reads this
    {
      Client(status, retried, refreshing, leader, queue, access, refresh)
    }

    constructor (accessToken: string, refreshToken: string)
      ensures View() == Client(map[], {}, false, 0, [], accessToken, refreshToken)
    {
      status, retried, refreshing, leader, queue := map[], {}, false, 0, [];
      access, refresh := accessToken, refreshToken;
    }

    method ClearAuthStorage()
      modifies this`access, this`refresh
      ensures access == "" && refresh == ""
    {
      access, refresh := "", "";
    }

    /** Runs every waiting callback with the outcome, then empties the list. */
    method NotifySubscribers(token: string)
      modifies this`status, this`queue
      ensures queue == []
      ensures status == SetAll(old(status), old(queue), if token != "" then InFlight else Rejected)
    {
      var to := if token != "" then InFlight else Rejected;
      for i := 0 to |queue|
        modifies this`status
        invariant status == SetAll(old(status), queue[..i], to)
      {
        status := status[queue[i] := to];
        assert queue[..i + 1] == queue[..i] + [queue[i]];
      }
      assert queue[..|queue|] == queue;
      queue := [];
    }

    /** The error branch up to the refresh call; `send` says whether a refresh is posted. */
    method HandleUnauthorized(r: nat) returns (send: bool, token: string)
      modifies this
      ensures View() == OnUnauthorized(old(View()), r)
      ensures send <==> r !in old(retried) && old(refresh) != "" && !old(refreshing)
      ensures send ==> token == old(refresh)
    {
      send, token := false, "";
      if r in retried {
        status := status[r := Rejected];
        return;
      }
      if refresh == "" {
        ClearAuthStorage();
        status := status[r := Rejected];
        return;
      }
      if refreshing {
        status, queue := status[r := Waiting], queue + [r];
        return;
      }
      retried, refreshing, leader := retried + {r}, true, r;
      status := status[r := Leading];
      send, token := true, refresh;
    }

    method HandleRefreshed(accessToken: string, refreshToken: string)
      modifies this
      ensures View() == OnRefreshed(old(View()), accessToken, refreshToken)
    {
      access, refresh := accessToken, refreshToken;
      NotifySubscribers(accessToken);
      status := status[leader := InFlight];
      refreshing := false;
    }

    method HandleRefreshFailed()
      modifies this
      ensures View() == OnRefreshFailed(old(View()))
    {
      NotifySubscribers("");
      ClearAuthStorage();
      status := status[leader := Rejected];
      refreshing := false;
    }
  }

  // ----- the rotation store -----

  /** jti -> user id of every refresh token that may still be used. */
  type Tokens = map<string, string>

  function Store(tokens: Tokens, jti: string, user: string): Tokens {
    tokens[jti := user]
  }

  /** What is left after a token is presented, and the user it stood for. */
  function Consume(tokens: Tokens, jti: string): (Tokens, Option<string>) {
    (tokens - {jti}, if jti in tokens then Some(tokens[jti]) else None)
  }

  class RefreshStore {
    var store: Tokens

    constructor ()
      ensures store == map[]
    {
      store := map[];
    }

    method StoreRefreshToken(jti: string, user: string)
      modifies this
      ensures store == Store(old(store), jti, user)
    {
      store := store[jti := user];
    }

    method ConsumeRefreshToken(jti: string) returns (user: Option<string>)
      modifies this
      ensures (store, user) == Consume(old(store), jti)
    {
      user := None;
      if jti in store {
        user := Some(store[jti]);
        store := store - {jti};
      } else {
        assert store - {jti} == store;
      }
    }
  }
}
