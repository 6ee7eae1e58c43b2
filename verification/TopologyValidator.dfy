/** The wiring checks, against one quantified statement of what a well-formed
    topology is. */
module TopologyValidator {
  import opened Options
  import opened Topology

  /** What the validator knows of a resolved port. */
  datatype Port = Port(typ: ChannelType, direction: Option<Direction>, specs: map<string, Spec>)

  datatype Side = From | To

  datatype Issue =
    | TypeMismatch(link: string, side: Side)
    | Unresolved(link: string, side: Side)
    | NotOutput(link: string)
    | NotInput(link: string)
    | SharedPort(port: (string, string), links: seq<string>)
    | Overcommitted(channel: (string, string), points: set<(string, string)>)
    | MissingRelay(route: string, relay: string)
    | MissingRoute(link: string, route: string)
    | NotOnRoute(link: string, route: string)
    | NoControlSignal(fixture: string, relay: string)
    | NoControlMethod(fixture: string, actuator: string)
    | GpibClash(instrument: string, other: string, address: string)
    | NoGround
    | Unwired(dut: string, point: string)
    | OverCurrent(link: string)

  // ----- endpoints -----

  function ChannelPort(cs: seq<Channel>, id: string): (r: Option<Port>)
    ensures r.Some? <==> exists c :: c in cs && c.id == id
    ensures r.Some? ==> r.value.direction.Some?
  {
    if cs == [] then None
    else if cs[0].id == id then Some(Port(cs[0].typ, Some(cs[0].direction), cs[0].specs))
    else ChannelPort(cs[1..], id)
  }

  function PointPort(ps: seq<TestPoint>, id: string): (r: Option<Port>)
    ensures r.Some? <==> exists p :: p in ps && p.id == id
    ensures r.Some? ==> r.value.direction.None?
  {
    if ps == [] then None
    else if ps[0].id == id then Some(Port(ps[0].typ, None, map[]))
    else PointPort(ps[1..], id)
  }

  function InstrumentPort(es: seq<Instrument>, id: string, port: string): (r: Option<Port>)
    ensures r.Some? <==> exists e :: e in es && e.id == id && ChannelPort(e.channels, port).Some?
    ensures r.Some? ==> r.value.direction.Some?
  {
    if es == [] then None
    else if es[0].id == id && ChannelPort(es[0].channels, port).Some? then ChannelPort(es[0].channels, port)
    else InstrumentPort(es[1..], id, port)
  }

  function FixturePort(es: seq<Fixture>, id: string, port: string): (r: Option<Port>)
    ensures r.Some? <==> exists e :: e in es && e.id == id && ChannelPort(e.terminals, port).Some?
    ensures r.Some? ==> r.value.direction.Some?
  {
    if es == [] then None
    else if es[0].id == id && ChannelPort(es[0].terminals, port).Some? then ChannelPort(es[0].terminals, port)
    else FixturePort(es[1..], id, port)
  }

  function DutPort(es: seq<Dut>, id: string, port: string): (r: Option<Port>)
    ensures r.Some? <==> exists e :: e in es && e.id == id && PointPort(e.testPoints, port).Some?
    ensures r.Some? ==> r.value.direction.None?
  {
    if es == [] then None
    else if es[0].id == id && PointPort(es[0].testPoints, port).Some? then PointPort(es[0].testPoints, port)
    else DutPort(es[1..], id, port)
  }

  /** The first entity and port that match; a relay contact never resolves. */
  function Resolve(t: FixtureTopology, e: Endpoint): (r: Option<Port>)
    ensures r.Some? ==> !e.entityType.RelayContact? && (r.value.direction.None? <==> e.entityType.DutTestpoint?)
  {
    match e.entityType
    case InstrumentChannel => InstrumentPort(t.instruments, e.entityId, e.portId)
    case FixtureTerminal => FixturePort(t.fixtures, e.entityId, e.portId)
    case DutTestpoint => DutPort(t.duts, e.entityId, e.portId)
    case RelayContact => None
  }

  /** The first channel with the id decides. */
  lemma {:induction false} FirstChannel(cs: seq<Channel>, id: string) returns (k: nat)
    requires ChannelPort(cs, id).Some?
    ensures k < |cs| && cs[k].id == id && (forall j :: 0 <= j < k ==> cs[j].id != id)
    ensures ChannelPort(cs, id) == Some(Port(cs[k].typ, Some(cs[k].direction), cs[k].specs))
  {
    if cs[0].id == id {
      k := 0;
    } else {
      var j := FirstChannel(cs[1..], id);
      k := j + 1;
    }
  }

  lemma {:induction false} FirstPoint(ps: seq<TestPoint>, id: string) returns (k: nat)
    requires PointPort(ps, id).Some?
    ensures k < |ps| && ps[k].id == id && (forall j :: 0 <= j < k ==> ps[j].id != id)
    ensures PointPort(ps, id) == Some(Port(ps[k].typ, None, map[]))
  {
    if ps[0].id == id {
      k := 0;
    } else {
      var j := FirstPoint(ps[1..], id);
      k := j + 1;
    }
  }

  /** The first instrument with both the id and the port decides. */
  lemma {:induction false} FirstInstrument(es: seq<Instrument>, id: string, port: string) returns (k: nat)
    requires InstrumentPort(es, id, port).Some?
    ensures k < |es| && es[k].id == id && InstrumentPort(es, id, port) == ChannelPort(es[k].channels, port)
    ensures forall j :: 0 <= j < k ==> es[j].id != id || ChannelPort(es[j].channels, port).None?
  {
    if es[0].id == id && ChannelPort(es[0].channels, port).Some? {
      k := 0;
    } else {
      var j := FirstInstrument(es[1..], id, port);
      k := j + 1;
    }
  }

  lemma {:induction false} FirstFixture(es: seq<Fixture>, id: string, port: string) returns (k: nat)
    requires FixturePort(es, id, port).Some?
    ensures k < |es| && es[k].id == id && FixturePort(es, id, port) == ChannelPort(es[k].terminals, port)
    ensures forall j :: 0 <= j < k ==> es[j].id != id || ChannelPort(es[j].terminals, port).None?
  {
    if es[0].id == id && ChannelPort(es[0].terminals, port).Some? {
      k := 0;
    } else {
      var j := FirstFixture(es[1..], id, port);
      k := j + 1;
    }
  }

  lemma {:induction false} FirstDut(es: seq<Dut>, id: string, port: string) returns (k: nat)
    requires DutPort(es, id, port).Some?
    ensures k < |es| && es[k].id == id && DutPort(es, id, port) == PointPort(es[k].testPoints, port)
    ensures forall j :: 0 <= j < k ==> es[j].id != id || PointPort(es[j].testPoints, port).None?
  {
    if es[0].id == id && PointPort(es[0].testPoints, port).Some? {
      k := 0;
    } else {
      var j := FirstDut(es[1..], id, port);
      k := j + 1;
    }
  }

  predicate IsOutput(p: Port) {
    p.direction.Some? && p.direction.value in [Output, Bidirectional]
  }

  predicate IsInput(p: Port) {
    p.direction.None? || p.direction.value in [Input, Bidirectional]
  }

  function Compatible(s: SignalType): set<ChannelType> {
    match s
    case PowerSignal => {Voltage, Current}
    case PlainSignal => {Voltage, Current, Resistance, DigitalIo}
    case GroundSignal => {Voltage}
    case RfSignal => {Rf}
    case ThermalSignal => {Thermal}
    case AirSignal => {}
  }

  // ----- what the issues mean -----

  ghost predicate BadType(t: FixtureTopology, l: Link, x: Issue) {
    var src, dst := Resolve(t, l.from), Resolve(t, l.to);
    && src.Some? && dst.Some?
    && (|| (x == TypeMismatch(l.id, From) && src.value.typ !in Compatible(l.signal))
        || (x == TypeMismatch(l.id, To) && dst.value.typ !in Compatible(l.signal)))
  }

  ghost predicate BadDirection(t: FixtureTopology, l: Link, x: Issue) {
    var src, dst := Resolve(t, l.from), Resolve(t, l.to);
    || (x == Unresolved(l.id, From) && src.None?)
    || (x == Unresolved(l.id, To) && src.Some? && dst.None?)
    || (x == NotOutput(l.id) && src.Some? && dst.Some? && !IsOutput(src.value))
    || (x == NotInput(l.id) && src.Some? && dst.Some? && !IsInput(dst.value))
  }

  function Target(l: Link): (string, string) {
    (l.to.entityId, l.to.portId)
  }

  function Source(l: Link): (string, string) {
    (l.from.entityId, l.from.portId)
  }

  /** Ids of the links that end at a port, in order. */
  function LinksTo(links: seq<Link>, port: (string, string)): seq<string> {
    if links == [] then []
    else
      LinksTo(links[..|links| - 1], port)
      + if Target(links[|links| - 1]) == port then [links[|links| - 1].id] else []
  }

  ghost predicate Shared(t: FixtureTopology, x: Issue) {
    x.SharedPort? && x.links == LinksTo(t.links, x.port) && |x.links| > 1
  }

  predicate Probes(l: Link, channel: (string, string)) {
    l.from.entityType.InstrumentChannel? && l.to.entityType.DutTestpoint? && Source(l) == channel
  }

  /** Test points a channel is wired to directly. */
  ghost function PointsOf(links: seq<Link>, channel: (string, string)): set<(string, string)> {
    set l | l in links && Probes(l, channel) :: Target(l)
  }

  ghost predicate Switched(links: seq<Link>, channel: (string, string)) {
    exists l :: l in links && Source(l) == channel && l.routeId != ""
  }

  ghost predicate Occupied(t: FixtureTopology, x: Issue) {
    x.Overcommitted? && x.points == PointsOf(t.links, x.channel) && |x.points| > 1 && !Switched(t.links, x.channel)
  }

  /** The route a routeId stands for: the last one with the id. */
  function RouteNamed(routes: seq<Route>, id: string): Option<Route> {
    if routes == [] then None
    else if routes[|routes| - 1].id == id then Some(routes[|routes| - 1])
    else RouteNamed(routes[..|routes| - 1], id)
  }

  ghost predicate Unrelayed(t: FixtureTopology, r: Route, x: Issue) {
    x.MissingRelay? && x.route == r.id && x.relay in r.relays && !RelayExists(t, x.relay)
  }

  ghost predicate Unrouted(t: FixtureTopology, l: Link, x: Issue) {
    var route := RouteNamed(t.routes, l.routeId);
    && l.routeId != ""
    && (|| (x == MissingRoute(l.id, l.routeId) && route.None?)
        || (x == NotOnRoute(l.id, l.routeId) && route.Some? && l.id !in route.value.links))
  }

  ghost predicate Uncontrolled(f: Fixture, x: Issue) {
    || (exists r :: r in f.relays && r.controlSignal == "" && x == NoControlSignal(f.id, r.id))
    || (exists a :: a in f.actuators && a.controlMethod == "" && x == NoControlMethod(f.id, a.id))
  }

  predicate OnBus(i: Instrument, address: string) {
    i.communication.Gpib? && i.address == address && address != ""
  }

  /** Instrument j answers to an address whose first holder is instrument i. */
  ghost predicate Clash(ins: seq<Instrument>, i: int, j: int, x: Issue) {
    && 0 <= i < j < |ins| && x.GpibClash? && x == GpibClash(ins[j].id, ins[i].id, x.address)
    && OnBus(ins[j], x.address) && OnBus(ins[i], x.address) && forall k :: 0 <= k < i ==> !OnBus(ins[k], x.address)
  }

  // ----- the checks -----

  function TypeIssues(t: FixtureTopology, l: Link): (r: seq<Issue>)
    ensures forall x :: x in r <==> BadType(t, l, x)
  {
    var src, dst := Resolve(t, l.from), Resolve(t, l.to);
    if src.None? || dst.None? then []
    else
      (if src.value.typ !in Compatible(l.signal) then [TypeMismatch(l.id, From)] else [])
      + (if dst.value.typ !in Compatible(l.signal) then [TypeMismatch(l.id, To)] else [])
  }

  method CheckPortTypeMatch(t: FixtureTopology) returns (issues: seq<Issue>)
    ensures forall x :: x in issues <==> exists l :: l in t.links && BadType(t, l, x)
  {
    issues := [];
    for n := 0 to |t.links|
      invariant forall x :: x in issues <==> exists l :: l in t.links[..n] && BadType(t, l, x)
    {
      assert t.links[..n + 1] == t.links[..n] + [t.links[n]];
      issues := issues + TypeIssues(t, t.links[n]);
    }
    assert t.links[..|t.links|] == t.links;
  }

  function DirectionIssues(t: FixtureTopology, l: Link): (r: seq<Issue>)
    ensures forall x :: x in r <==> BadDirection(t, l, x)
  {
    var src, dst := Resolve(t, l.from), Resolve(t, l.to);
    if src.None? then [Unresolved(l.id, From)]
    else if dst.None? then [Unresolved(l.id, To)]
    else if IsOutput(src.value) && IsInput(dst.value) then []
    else
      (if !IsOutput(src.value) then [NotOutput(l.id)] else [])
      + (if !IsInput(dst.value) then [NotInput(l.id)] else [])
  }

  method CheckSignalDirection(t: FixtureTopology) returns (issues: seq<Issue>)
    ensures forall x :: x in issues <==> exists l :: l in t.links && BadDirection(t, l, x)
  {
    issues := [];
    for n := 0 to |t.links|
      invariant forall x :: x in issues <==> exists l :: l in t.links[..n] && BadDirection(t, l, x)
    {
      assert t.links[..n + 1] == t.links[..n] + [t.links[n]];
      issues := issues + DirectionIssues(t, t.links[n]);
    }
    assert t.links[..|t.links|] == t.links;
  }

  /** Link ids by target port, gathered in one pass. */
  method TargetCounts(links: seq<Link>) returns (counts: map<(string, string), seq<string>>)
    ensures forall k :: k in counts <==> LinksTo(links, k) != []
    ensures forall k :: k in counts ==> counts[k] == LinksTo(links, k)
  {
    counts := map[];
    for n := 0 to |links|
      invariant forall k :: k in counts <==> LinksTo(links[..n], k) != []
      invariant forall k :: k in counts ==> counts[k] == LinksTo(links[..n], k)
    {
      var l := links[n];
      assert links[..n + 1][..n] == links[..n];
      counts := counts[Target(l) := (if Target(l) in counts then counts[Target(l)] else []) + [l.id]];
    }
    assert links[..|links|] == links;
  }

  method CheckShortCircuitConflict(t: FixtureTopology) returns (issues: seq<Issue>)
    ensures forall x :: x in issues <==> Shared(t, x)
  {
    var counts := TargetCounts(t.links);
    issues := [];
    var left := counts.Keys;
    while left != {}
      invariant left <= counts.Keys
      invariant forall x :: x in issues <==> Shared(t, x) && x.port !in left
    {
      var k :| k in left;
      left := left - {k};
      if |counts[k]| > 1 {
        issues := issues + [SharedPort(k, counts[k])];
      }
    }
  }

  /** Directly wired test points by instrument channel. */
  method ChannelTargets(links: seq<Link>) returns (targets: map<(string, string), set<(string, string)>>)
    ensures forall k :: k in targets <==> PointsOf(links, k) != {}
    ensures forall k :: k in targets ==> targets[k] == PointsOf(links, k)
  {
    targets := map[];
    for n := 0 to |links|
      invariant forall k :: k in targets <==> PointsOf(links[..n], k) != {}
      invariant forall k :: k in targets ==> targets[k] == PointsOf(links[..n], k)
    {
      var l := links[n];
      PointsSnoc(links, n);
      if l.from.entityType.InstrumentChannel? && l.to.entityType.DutTestpoint? {
        var key := Source(l);
        targets := targets[key := (if key in targets then targets[key] else {}) + {Target(l)}];
      }
    }
    assert links[..|links|] == links;
  }

  lemma PointsSnoc(links: seq<Link>, n: nat)
    requires n < |links|
    ensures forall k :: PointsOf(links[..n + 1], k)
                     == PointsOf(links[..n], k) + if Probes(links[n], k) then {Target(links[n])} else {}
  {
    assert links[..n + 1] == links[..n] + [links[n]];
    assert links[n] in links[..n + 1];
    assert forall l :: l in links[..n + 1] <==> l in links[..n] || l == links[n];
  }

  method HasMatrix(links: seq<Link>, channel: (string, string)) returns (b: bool)
    ensures b <==> Switched(links, channel)
  {
    for n := 0 to |links|
      invariant !Switched(links[..n], channel)
    {
      if Source(links[n]) == channel && links[n].routeId != "" {
        return true;
      }
      assert links[..n + 1] == links[..n] + [links[n]];
    }
    assert links[..|links|] == links;
    return false;
  }

  method CheckChannelOccupancy(t: FixtureTopology) returns (issues: seq<Issue>)
    ensures forall x :: x in issues <==> Occupied(t, x)
  {
    var targets := ChannelTargets(t.links);
    issues := [];
    var left := targets.Keys;
    while left != {}
      invariant left <= targets.Keys
      invariant forall x :: x in issues <==> Occupied(t, x) && x.channel !in left
    {
      var k :| k in left;
      left := left - {k};
      if |targets[k]| > 1 {
        var hasMatrix := HasMatrix(t.links, k);
        if !hasMatrix {
          issues := issues + [Overcommitted(k, targets[k])];
        }
      }
    }
  }

  method RoutesById(routes: seq<Route>) returns (byId: map<string, Route>)
    ensures forall id :: RouteNamed(routes, id) == if id in byId then Some(byId[id]) else None
  {
    byId := map[];
    for n := 0 to |routes|
      invariant forall id :: RouteNamed(routes[..n], id) == if id in byId then Some(byId[id]) else None
    {
      assert routes[..n + 1][..n] == routes[..n];
      byId := byId[routes[n].id := routes[n]];
    }
    assert routes[..|routes|] == routes;
  }

  method MissingRelays(t: FixtureTopology, r: Route, relayIds: set<string>) returns (issues: seq<Issue>)
    requires forall id :: id in relayIds <==> RelayExists(t, id)
    ensures forall x :: x in issues <==> Unrelayed(t, r, x)
  {
    issues := [];
    for n := 0 to |r.relays|
      invariant forall x :: x in issues <==> Unrelayed(t, r, x) && x.relay in r.relays[..n]
    {
      assert r.relays[..n + 1] == r.relays[..n] + [r.relays[n]];
      if r.relays[n] !in relayIds {
        issues := issues + [MissingRelay(r.id, r.relays[n])];
      }
    }
    assert r.relays[..|r.relays|] == r.relays;
  }

  method CheckRouteReachable(t: FixtureTopology) returns (issues: seq<Issue>)
    ensures forall x :: x in issues <==>
      (exists r :: r in t.routes && Unrelayed(t, r, x)) || (exists l :: l in t.links && Unrouted(t, l, x))
  {
    var byId := RoutesById(t.routes);
    var relayIds := set f, r | f in t.fixtures && r in f.relays :: r.id;
    issues := [];
    for n := 0 to |t.routes|
      invariant forall x :: x in issues <==> exists r :: r in t.routes[..n] && Unrelayed(t, r, x)
    {
      assert t.routes[..n + 1] == t.routes[..n] + [t.routes[n]];
      var more := MissingRelays(t, t.routes[n], relayIds);
      issues := issues + more;
    }
    assert t.routes[..|t.routes|] == t.routes;
    var unrouted := UnroutedLinks(t, byId);
    issues := issues + unrouted;
  }

  method UnroutedLinks(t: FixtureTopology, byId: map<string, Route>) returns (issues: seq<Issue>)
    requires forall id :: RouteNamed(t.routes, id) == if id in byId then Some(byId[id]) else None
    ensures forall x :: x in issues <==> exists l :: l in t.links && Unrouted(t, l, x)
  {
    issues := [];
    for n := 0 to |t.links|
      invariant forall x :: x in issues <==> exists l :: l in t.links[..n] && Unrouted(t, l, x)
    {
      var l := t.links[n];
      assert t.links[..n + 1] == t.links[..n] + [l];
      var more := [];
      if l.routeId != "" {
        if l.routeId !in byId {
          more := [MissingRoute(l.id, l.routeId)];
        } else if l.id !in byId[l.routeId].links {
          more := [NotOnRoute(l.id, l.routeId)];
        }
      }
      assert forall x :: x in more <==> Unrouted(t, l, x);
      issues := issues + more;
    }
    assert t.links[..|t.links|] == t.links;
  }

  method FixtureIssues(f: Fixture) returns (issues: seq<Issue>)
    ensures forall x :: x in issues <==> Uncontrolled(f, x)
  {
    issues := [];
    for n := 0 to |f.relays|
      invariant forall x :: x in issues <==>
        exists r :: r in f.relays[..n] && r.controlSignal == "" && x == NoControlSignal(f.id, r.id)
    {
      assert f.relays[..n + 1] == f.relays[..n] + [f.relays[n]];
      if f.relays[n].controlSignal == "" {
        issues := issues + [NoControlSignal(f.id, f.relays[n].id)];
      }
    }
    assert f.relays[..|f.relays|] == f.relays;
    ghost var relayIssues := issues;
    for n := 0 to |f.actuators|
      invariant forall x :: x in issues <==>
        || x in relayIssues
        || exists a :: a in f.actuators[..n] && a.controlMethod == "" && x == NoControlMethod(f.id, a.id)
    {
      assert f.actuators[..n + 1] == f.actuators[..n] + [f.actuators[n]];
      if f.actuators[n].controlMethod == "" {
        issues := issues + [NoControlMethod(f.id, f.actuators[n].id)];
      }
    }
    assert f.actuators[..|f.actuators|] == f.actuators;
  }

  method CheckFixtureControl(t: FixtureTopology) returns (issues: seq<Issue>)
    ensures forall x :: x in issues <==> exists f :: f in t.fixtures && Uncontrolled(f, x)
  {
    issues := [];
    for n := 0 to |t.fixtures|
      invariant forall x :: x in issues <==> exists f :: f in t.fixtures[..n] && Uncontrolled(f, x)
    {
      assert t.fixtures[..n + 1] == t.fixtures[..n] + [t.fixtures[n]];
      var more := FixtureIssues(t.fixtures[n]);
      issues := issues + more;
    }
    assert t.fixtures[..|t.fixtures|] == t.fixtures;
  }

  /** `first` holds, by address, the id of the first instrument on the bus with it. */
  ghost predicate FirstHolders(ins: seq<Instrument>, n: nat, first: map<string, string>)
    requires n <= |ins|
  {
    && (forall a :: a in first ==> exists i :: FirstHolder(ins, n, a, i) && first[a] == ins[i].id)
    && (forall k :: 0 <= k < n && ins[k].communication.Gpib? && ins[k].address != "" ==> ins[k].address in first)
  }

  ghost predicate FirstHolder(ins: seq<Instrument>, n: nat, a: string, i: int)
    requires n <= |ins|
  {
    0 <= i < n && OnBus(ins[i], a) && forall k :: 0 <= k < i ==> !OnBus(ins[k], a)
  }

  method CheckGpibConflict(t: FixtureTopology) returns (issues: seq<Issue>)
    ensures forall x :: x in issues <==> exists i, j :: Clash(t.instruments, i, j, x)
  {
    var ins := t.instruments;
    var first := map[];
    issues := [];
    for n := 0 to |ins|
      invariant FirstHolders(ins, n, first)
      invariant forall x :: x in issues <==> exists i, j :: j < n && Clash(ins, i, j, x)
    {
      var inst := ins[n];
      ghost var before := issues;
      ghost var held := first;
      if inst.communication.Gpib? && inst.address != "" {
        if inst.address in first {
          issues := issues + [GpibClash(inst.id, first[inst.address], inst.address)];
        } else {
          first := first[inst.address := inst.id];
        }
      }
      ClashAt(ins, n, held, before, issues);
      HoldersNext(ins, n, held, first);
    }
  }

  lemma HoldersNext(ins: seq<Instrument>, n: nat, before: map<string, string>, after: map<string, string>)
    requires n < |ins| && FirstHolders(ins, n, before)
    requires after == if ins[n].communication.Gpib? && ins[n].address != "" && ins[n].address !in before
                      then before[ins[n].address := ins[n].id] else before
    ensures FirstHolders(ins, n + 1, after)
  {
    forall a | a in after ensures exists i :: FirstHolder(ins, n + 1, a, i) && after[a] == ins[i].id {
      if a in before {
        var i :| FirstHolder(ins, n, a, i) && before[a] == ins[i].id;
        assert FirstHolder(ins, n + 1, a, i);
      } else {
        assert FirstHolder(ins, n + 1, a, n);
      }
    }
  }

  lemma ClashAt(ins: seq<Instrument>, n: nat, first: map<string, string>, before: seq<Issue>, after: seq<Issue>)
    requires n < |ins| && FirstHolders(ins, n, first)
    requires forall x :: x in before <==> exists i, j :: j < n && Clash(ins, i, j, x)
    requires after == before + if ins[n].communication.Gpib? && ins[n].address != "" && ins[n].address in first
                               then [GpibClash(ins[n].id, first[ins[n].address], ins[n].address)] else []
    ensures forall x :: x in after <==> exists i, j :: j < n + 1 && Clash(ins, i, j, x)
  {
    forall x | x in after ensures exists i, j :: j < n + 1 && Clash(ins, i, j, x) {
      if x !in before {
        var i :| FirstHolder(ins, n, x.address, i) && first[x.address] == ins[i].id;
        assert Clash(ins, i, n, x);
      }
    }
    forall x | exists i, j :: j < n + 1 && Clash(ins, i, j, x) ensures x in after {
      var i, j :| j < n + 1 && Clash(ins, i, j, x);
      if j == n {
        var k :| FirstHolder(ins, n, x.address, k) && first[x.address] == ins[k].id;
        assert i == k;
      }
    }
  }

  // ----- the checks that only warn -----

  ghost predicate Ungrounded(t: FixtureTopology, x: Issue) {
    && x == NoGround && (exists l :: l in t.links && l.signal.PowerSignal?)
    && forall l :: l in t.links ==> !l.signal.GroundSignal?
  }

  /** A test point with an expected range that no link ends at. */
  ghost predicate Uncovered(t: FixtureTopology, d: Dut, x: Issue) {
    && x.Unwired? && x.dut == d.id && (exists p :: p in d.testPoints && p.id == x.point && p.hasExpectedRange)
    && forall l :: l in t.links && l.to.entityType.DutTestpoint? ==> Target(l) != (d.id, x.point)
  }

  /** The rated current: max_current if it is a number, else rated_current. */
  function RatedCurrent(specs: map<string, Spec>): Option<real> {
    if "max_current" in specs && specs["max_current"].Number? then Some(specs["max_current"].value)
    else if "rated_current" in specs && specs["rated_current"].Number? then Some(specs["rated_current"].value)
    else None
  }

  predicate IsNumber(specs: map<string, Spec>, key: string) {
    key in specs && specs[key].Number?
  }

  /** A power link that draws more than its channel gives: its max_current if
      that is a number, else its rated_current if that is one. */
  ghost predicate Overloaded(t: FixtureTopology, l: Link, x: Issue) {
    var src := Resolve(t, l.from);
    && x == OverCurrent(l.id) && l.signal.PowerSignal? && l.maxCurrent.Some? && src.Some?
    && var specs := src.value.specs;
       || (IsNumber(specs, "max_current") && l.maxCurrent.value > specs["max_current"].value)
       || (!IsNumber(specs, "max_current") && IsNumber(specs, "rated_current")
           && l.maxCurrent.value > specs["rated_current"].value)
  }

  method CheckGroundIntegrity(t: FixtureTopology) returns (issues: seq<Issue>)
    ensures forall x :: x in issues <==> Ungrounded(t, x)
  {
    issues := [];
    var power, ground := 0, 0;
    for n := 0 to |t.links|
      invariant power >= 0 && ground >= 0
      invariant power > 0 <==> exists l :: l in t.links[..n] && l.signal.PowerSignal?
      invariant ground > 0 <==> exists l :: l in t.links[..n] && l.signal.GroundSignal?
    {
      assert t.links[..n + 1] == t.links[..n] + [t.links[n]];
      if t.links[n].signal.PowerSignal? { power := power + 1; }
      if t.links[n].signal.GroundSignal? { ground := ground + 1; }
    }
    assert t.links[..|t.links|] == t.links;
    if power == 0 { return; }
    if ground == 0 {
      issues := [NoGround];
    }
  }

  method UncoveredPoints(t: FixtureTopology, d: Dut, connected: set<(string, string)>) returns (issues: seq<Issue>)
    requires forall k :: k in connected <==> exists l :: l in t.links && l.to.entityType.DutTestpoint? && Target(l) == k
    ensures forall x :: x in issues <==> Uncovered(t, d, x)
  {
    issues := [];
    for n := 0 to |d.testPoints|
      invariant forall x :: x in issues <==>
        x.Unwired? && x.dut == d.id && (d.id, x.point) !in connected
        && exists p :: p in d.testPoints[..n] && p.id == x.point && p.hasExpectedRange
    {
      var tp := d.testPoints[n];
      assert d.testPoints[..n + 1] == d.testPoints[..n] + [tp];
      if tp.hasExpectedRange && (d.id, tp.id) !in connected {
        issues := issues + [Unwired(d.id, tp.id)];
      }
    }
    assert d.testPoints[..|d.testPoints|] == d.testPoints;
  }

  method CheckDutCoverage(t: FixtureTopology) returns (issues: seq<Issue>)
    ensures forall x :: x in issues <==> exists d :: d in t.duts && Uncovered(t, d, x)
  {
    var connected := set l | l in t.links && l.to.entityType.DutTestpoint? :: Target(l);
    issues := [];
    for n := 0 to |t.duts|
      invariant forall x :: x in issues <==> exists d :: d in t.duts[..n] && Uncovered(t, d, x)
    {
      assert t.duts[..n + 1] == t.duts[..n] + [t.duts[n]];
      var more := UncoveredPoints(t, t.duts[n], connected);
      issues := issues + more;
    }
    assert t.duts[..|t.duts|] == t.duts;
  }

  method CheckPowerCapacity(t: FixtureTopology) returns (issues: seq<Issue>)
    ensures forall x :: x in issues <==> exists l :: l in t.links && Overloaded(t, l, x)
  {
    issues := [];
    for n := 0 to |t.links|
      invariant forall x :: x in issues <==> exists l :: l in t.links[..n] && Overloaded(t, l, x)
    {
      var l := t.links[n];
      assert t.links[..n + 1] == t.links[..n] + [l];
      if l.signal.PowerSignal? && l.maxCurrent.Some? {
        var src := Resolve(t, l.from);
        if src.Some? {
          var rated := RatedCurrent(src.value.specs);
          if rated.Some? && l.maxCurrent.value > rated.value {
            issues := issues + [OverCurrent(l.id)];
            assert Overloaded(t, l, OverCurrent(l.id));
          }
        }
      }
    }
    assert t.links[..|t.links|] == t.links;
  }

  // ----- the whole validation -----

  datatype Level = ErrorLevel | WarningLevel

  class ValidationResult {
    var errors: seq<Issue>
    var warnings: seq<Issue>

    constructor ()
      ensures errors == [] && warnings == []
    {
      errors, warnings := [], [];
    }

    /** Files an issue under the level in force. */
    method Add(issue: Issue, level: Level)
      modifies this
      ensures errors == old(errors) + if level.ErrorLevel? then [issue] else []
      ensures warnings == old(warnings) + if level.ErrorLevel? then [] else [issue]
    {
      if level.ErrorLevel? {
        errors := errors + [issue];
      } else {
        warnings := warnings + [issue];
      }
    }

    method AddAll(issues: seq<Issue>, level: Level)
      modifies this
      ensures errors == old(errors) + if level.ErrorLevel? then issues else []
      ensures warnings == old(warnings) + if level.ErrorLevel? then [] else issues
    {
      for n := 0 to |issues|
        invariant errors == old(errors) + if level.ErrorLevel? then issues[..n] else []
        invariant warnings == old(warnings) + if level.ErrorLevel? then [] else issues[..n]
      {
        Add(issues[n], level);
        assert issues[..n + 1] == issues[..n] + [issues[n]];
      }
      assert issues[..|issues|] == issues;
    }
  }

  /** Everything the blocking checks can find. */
  ghost predicate Violation(t: FixtureTopology, x: Issue) {
    || (exists l :: l in t.links && BadType(t, l, x))
    || (exists l :: l in t.links && BadDirection(t, l, x))
    || Shared(t, x)
    || Occupied(t, x)
    || (exists r :: r in t.routes && Unrelayed(t, r, x))
    || (exists l :: l in t.links && Unrouted(t, l, x))
    || (exists f :: f in t.fixtures && Uncontrolled(f, x))
    || (exists i, j :: Clash(t.instruments, i, j, x))
  }

  /** Everything the other checks can find. */
  ghost predicate Caution(t: FixtureTopology, x: Issue) {
    || Ungrounded(t, x)
    || (exists d :: d in t.duts && Uncovered(t, d, x))
    || (exists l :: l in t.links && Overloaded(t, l, x))
  }

  method BlockingChecks(t: FixtureTopology) returns (issues: seq<Issue>)
    ensures forall x :: x in issues <==> Violation(t, x)
  {
    var portTypes := CheckPortTypeMatch(t);
    var directions := CheckSignalDirection(t);
    var conflicts := CheckShortCircuitConflict(t);
    var occupancy := CheckChannelOccupancy(t);
    var routes := CheckRouteReachable(t);
    var controls := CheckFixtureControl(t);
    var gpib := CheckGpibConflict(t);
    issues := portTypes + directions + conflicts + occupancy + routes + controls + gpib;
  }

  method WarningChecks(t: FixtureTopology) returns (issues: seq<Issue>)
    ensures forall x :: x in issues <==> Caution(t, x)
  {
    var ground := CheckGroundIntegrity(t);
    var coverage := CheckDutCoverage(t);
    var power := CheckPowerCapacity(t);
    issues := ground + coverage + power;
  }

  /** The issues found are exactly the violations and cautions; in error mode
      there is no error exactly when the topology is well formed, in warning
      mode there never is one. */
  method Validate(t: FixtureTopology, strictness: Level := ErrorLevel) returns (result: ValidationResult)
    ensures fresh(result)
    ensures strictness.ErrorLevel? ==> (result.errors == [] <==> WellFormed(t))
    ensures strictness.ErrorLevel? ==> forall x :: x in result.errors <==> Violation(t, x)
    ensures strictness.ErrorLevel? ==> forall x :: x in result.warnings <==> Caution(t, x)
    ensures strictness.WarningLevel? ==> result.errors == []
    ensures strictness.WarningLevel? ==> forall x :: x in result.warnings <==> Violation(t, x) || Caution(t, x)
  {
    result := new ValidationResult();
    var blocking := BlockingChecks(t);
    var cautions := WarningChecks(t);
    result.AddAll(blocking, strictness);
    result.AddAll(cautions, WarningLevel);
    NoViolations(t);
    assert blocking == [] || blocking[0] in blocking;
  }

  // ----- what it amounts to -----

  /** The signals a port of each type can carry. Nothing carries air. */
  ghost function Carried(c: ChannelType): set<SignalType> {
    match c
    case Voltage => {PowerSignal, PlainSignal, GroundSignal}
    case Current => {PowerSignal, PlainSignal}
    case Resistance => {PlainSignal}
    case DigitalIo => {PlainSignal}
    case Rf => {RfSignal}
    case Thermal => {ThermalSignal}
  }

  /** From a port that can drive to one that can listen, both fit for the signal. */
  ghost predicate SoundLink(t: FixtureTopology, l: Link) {
    var src, dst := Resolve(t, l.from), Resolve(t, l.to);
    && src.Some? && dst.Some?
    && l.signal in Carried(src.value.typ) && l.signal in Carried(dst.value.typ)
    && (src.value.direction == Some(Output) || src.value.direction == Some(Bidirectional))
    && dst.value.direction != Some(Output)
  }

  ghost predicate LastRoute(routes: seq<Route>, id: string, k: int) {
    0 <= k < |routes| && routes[k].id == id && forall j :: k < j < |routes| ==> routes[j].id != id
  }

  /** A routed link is listed by the last route with its route id. */
  ghost predicate SoundRoute(t: FixtureTopology, l: Link) {
    l.routeId != "" ==> exists k :: LastRoute(t.routes, l.routeId, k) && l.id in t.routes[k].links
  }

  ghost predicate SameEnd(a: Endpoint, b: Endpoint) {
    a.entityId == b.entityId && a.portId == b.portId
  }

  ghost predicate OneLinkPerTarget(links: seq<Link>) {
    forall i, j :: 0 <= i < j < |links| ==> !SameEnd(links[i].to, links[j].to)
  }

  ghost predicate Straight(l: Link) {
    l.from.entityType == InstrumentChannel && l.to.entityType == DutTestpoint
  }

  /** A channel wired straight to two test points goes through a switch. */
  ghost predicate SplitsAreSwitched(links: seq<Link>) {
    forall l, m ::
      && l in links && m in links && Straight(l) && Straight(m)
      && SameEnd(l.from, m.from) && !SameEnd(l.to, m.to) ==>
      exists s :: s in links && SameEnd(s.from, l.from) && s.routeId != ""
  }

  ghost predicate Controlled(f: Fixture) {
    && (forall r :: r in f.relays ==> r.controlSignal != "")
    && (forall a :: a in f.actuators ==> a.controlMethod != "")
  }

  ghost predicate DistinctAddresses(ins: seq<Instrument>) {
    forall i, j :: 0 <= i < j < |ins| && ins[i].communication == Gpib && ins[j].communication == Gpib ==>
      ins[i].address == "" || ins[i].address != ins[j].address
  }

  ghost predicate WellFormed(t: FixtureTopology) {
    && (forall l :: l in t.links ==> SoundLink(t, l))
    && OneLinkPerTarget(t.links)
    && SplitsAreSwitched(t.links)
    && (forall r, id :: r in t.routes && id in r.relays ==> RelayExists(t, id))
    && (forall l :: l in t.links ==> SoundRoute(t, l))
    && (forall f :: f in t.fixtures ==> Controlled(f))
    && DistinctAddresses(t.instruments)
  }

  lemma SameTable(s: SignalType, c: ChannelType)
    ensures s in Carried(c) <==> c in Compatible(s)
  {
  }

  lemma SameDirections(p: Port)
    ensures IsOutput(p) <==> p.direction == Some(Output) || p.direction == Some(Bidirectional)
    ensures IsInput(p) <==> p.direction != Some(Output)
  {
    if p.direction.Some? {
      match p.direction.value
      case Input =>
      case Output =>
      case Bidirectional =>
    }
  }

  lemma LinkSound(t: FixtureTopology, l: Link)
    ensures SoundLink(t, l) <==> forall x :: !BadType(t, l, x) && !BadDirection(t, l, x)
  {
    var src, dst := Resolve(t, l.from), Resolve(t, l.to);
    if src.Some? { SameTable(l.signal, src.value.typ); SameDirections(src.value); }
    if dst.Some? { SameTable(l.signal, dst.value.typ); SameDirections(dst.value); }
    if !SoundLink(t, l) {
      if src.None? { assert BadDirection(t, l, Unresolved(l.id, From)); }
      else if dst.None? { assert BadDirection(t, l, Unresolved(l.id, To)); }
      else if !IsOutput(src.value) { assert BadDirection(t, l, NotOutput(l.id)); }
      else if !IsInput(dst.value) { assert BadDirection(t, l, NotInput(l.id)); }
      else if src.value.typ !in Compatible(l.signal) { assert BadType(t, l, TypeMismatch(l.id, From)); }
      else { assert BadType(t, l, TypeMismatch(l.id, To)); }
    }
  }

  lemma {:induction false} TwoLinksTo(links: seq<Link>, i: nat, j: nat)
    requires i < j < |links| && Target(links[i]) == Target(links[j])
    ensures |LinksTo(links, Target(links[i]))| > 1
    decreases |links|
  {
    var port, init := Target(links[i]), links[..|links| - 1];
    if j < |links| - 1 { TwoLinksTo(init, i, j); } else { OneLinkTo(init, i); }
  }

  lemma {:induction false} OneLinkTo(links: seq<Link>, i: nat)
    requires i < |links|
    ensures LinksTo(links, Target(links[i])) != []
    decreases |links|
  {
    if i < |links| - 1 { OneLinkTo(links[..|links| - 1], i); }
  }

  lemma {:induction false} SomeLinkTo(links: seq<Link>, port: (string, string))
    requires LinksTo(links, port) != []
    ensures exists i :: 0 <= i < |links| && Target(links[i]) == port
  {
    if Target(links[|links| - 1]) != port { SomeLinkTo(links[..|links| - 1], port); }
  }

  lemma {:induction false} DistinctTargets(links: seq<Link>, port: (string, string))
    requires OneLinkPerTarget(links)
    ensures |LinksTo(links, port)| <= 1
  {
    if links != [] {
      var init := links[..|links| - 1];
      DistinctTargets(init, port);
      if Target(links[|links| - 1]) == port && LinksTo(init, port) != [] { SomeLinkTo(init, port); }
    }
  }

  /** The listed ids are those of the links at these places, in rising order,
      and no link to the port is left out. */
  ghost predicate ListedAt(links: seq<Link>, port: (string, string), at: seq<int>, ids: seq<string>) {
    && |at| == |ids| && (forall a, b :: 0 <= a < b < |at| ==> at[a] < at[b])
    && (forall a :: 0 <= a < |at| ==> 0 <= at[a] < |links| && ids[a] == links[at[a]].id)
    && (forall i :: 0 <= i < |links| ==> (i in at <==> (links[i].to.entityId, links[i].to.portId) == port))
  }

  lemma {:induction false} LinksInOrder(links: seq<Link>, port: (string, string)) returns (at: seq<int>)
    ensures ListedAt(links, port, at, LinksTo(links, port))
  {
    if links == [] {
      at := [];
    } else {
      var n := |links| - 1;
      var init := LinksInOrder(links[..n], port);
      at := if Target(links[n]) == port then init + [n] else init;
      ListedNext(links, port, init, LinksTo(links[..n], port));
    }
  }

  lemma ListedNext(links: seq<Link>, port: (string, string), at: seq<int>, ids: seq<string>)
    requires links != [] && ListedAt(links[..|links| - 1], port, at, ids)
    ensures var n := |links| - 1;
      if Target(links[n]) == port then ListedAt(links, port, at + [n], ids + [links[n].id])
      else ListedAt(links, port, at, ids)
  {
    var n := |links| - 1;
    var init := links[..n];
    assert forall i :: 0 <= i < n ==> init[i] == links[i];
    var all := at + [n];
    assert forall i :: i in all <==> i in at || i == n;
    assert n !in at;
  }

  lemma NoneShared(t: FixtureTopology)
    ensures OneLinkPerTarget(t.links) <==> forall x :: !Shared(t, x)
  {
    if OneLinkPerTarget(t.links) {
      forall x ensures !Shared(t, x) {
        if x.SharedPort? { DistinctTargets(t.links, x.port); }
      }
    } else {
      var i, j :| 0 <= i < j < |t.links| && SameEnd(t.links[i].to, t.links[j].to);
      TwoLinksTo(t.links, i, j);
      var port := Target(t.links[i]);
      assert Shared(t, SharedPort(port, LinksTo(t.links, port)));
    }
  }

  lemma AtLeastTwo<T>(s: set<T>, a: T, b: T)
    requires a in s && b in s && a != b
    ensures |s| > 1
  {
    assert |s - {a}| > 0 by { assert b in s - {a}; }
  }

  lemma PickTwo<T>(s: set<T>) returns (a: T, b: T)
    requires |s| > 1
    ensures a in s && b in s && a != b
  {
    a :| a in s;
    assert |s - {a}| > 0;
    b :| b in s - {a};
  }

  lemma NoneOccupied(t: FixtureTopology)
    ensures SplitsAreSwitched(t.links) <==> forall x :: !Occupied(t, x)
  {
    if SplitsAreSwitched(t.links) {
      forall c | |PointsOf(t.links, c)| > 1 ensures Switched(t.links, c) {
        var p, q := PickTwo(PointsOf(t.links, c));
        var l :| l in t.links && Probes(l, c) && Target(l) == p;
        var m :| m in t.links && Probes(m, c) && Target(m) == q;
        assert SameEnd(l.from, m.from) && !SameEnd(l.to, m.to);
        var s :| s in t.links && SameEnd(s.from, l.from) && s.routeId != "";
        assert Source(s) == c;
      }
    } else {
      var l, m :| l in t.links && m in t.links && Straight(l) && Straight(m) && SameEnd(l.from, m.from)
        && !SameEnd(l.to, m.to) && forall s :: s in t.links && SameEnd(s.from, l.from) ==> s.routeId == "";
      assert !Switched(t.links, Source(l));
      var points := PointsOf(t.links, Source(l));
      AtLeastTwo(points, Target(l), Target(m));
      assert Occupied(t, Overcommitted(Source(l), points));
    }
  }

  lemma {:induction false} RouteIsLast(routes: seq<Route>, id: string)
    ensures RouteNamed(routes, id).None? <==> forall k :: !LastRoute(routes, id, k)
    ensures forall k :: LastRoute(routes, id, k) ==> RouteNamed(routes, id) == Some(routes[k])
  {
    if routes != [] {
      var n := |routes| - 1;
      if routes[n].id == id {
        assert LastRoute(routes, id, n);
      } else {
        RouteIsLast(routes[..n], id);
        forall k ensures LastRoute(routes, id, k) <==> LastRoute(routes[..n], id, k) {
        }
      }
    }
  }

  lemma RouteSound(t: FixtureTopology, l: Link)
    ensures SoundRoute(t, l) <==> forall x :: !Unrouted(t, l, x)
  {
    RouteIsLast(t.routes, l.routeId);
    if !SoundRoute(t, l) {
      assert Unrouted(t, l, if RouteNamed(t.routes, l.routeId).None? then MissingRoute(l.id, l.routeId)
                            else NotOnRoute(l.id, l.routeId));
    }
  }

  lemma RelaysExist(t: FixtureTopology)
    ensures (forall r, id :: r in t.routes && id in r.relays ==> RelayExists(t, id))
       <==> forall r, x :: r in t.routes ==> !Unrelayed(t, r, x)
  {
    forall r, id | r in t.routes && id in r.relays && !RelayExists(t, id)
      ensures Unrelayed(t, r, MissingRelay(r.id, id))
    {
    }
  }

  lemma FixtureControlled(f: Fixture)
    ensures Controlled(f) <==> forall x :: !Uncontrolled(f, x)
  {
    forall r | r in f.relays && r.controlSignal == "" ensures Uncontrolled(f, NoControlSignal(f.id, r.id)) {
    }
    forall a | a in f.actuators && a.controlMethod == "" ensures Uncontrolled(f, NoControlMethod(f.id, a.id)) {
    }
  }

  lemma {:induction false} FirstOnBus(ins: seq<Instrument>, a: string, j: nat) returns (i: nat)
    requires j < |ins| && OnBus(ins[j], a)
    ensures i <= j && OnBus(ins[i], a) && forall k :: 0 <= k < i ==> !OnBus(ins[k], a)
  {
    if k :| 0 <= k < j && OnBus(ins[k], a) { i := FirstOnBus(ins, a, k); } else { i := j; }
  }

  lemma NoneClash(ins: seq<Instrument>)
    ensures DistinctAddresses(ins) <==> forall i, j, x :: !Clash(ins, i, j, x)
  {
    if !DistinctAddresses(ins) {
      var i, j :| 0 <= i < j < |ins| && ins[i].communication == Gpib && ins[j].communication == Gpib
        && ins[i].address != "" && ins[i].address == ins[j].address;
      var a := ins[i].address;
      var k := FirstOnBus(ins, a, i);
      assert Clash(ins, k, j, GpibClash(ins[j].id, ins[k].id, a));
    }
  }

  /** The blocking checks find nothing exactly when the topology is well formed. */
  lemma NoViolations(t: FixtureTopology)
    ensures WellFormed(t) <==> forall x :: !Violation(t, x)
  {
    forall l | l in t.links ensures SoundLink(t, l) <==> forall x :: !BadType(t, l, x) && !BadDirection(t, l, x) {
      LinkSound(t, l);
    }
    forall l | l in t.links ensures SoundRoute(t, l) <==> forall x :: !Unrouted(t, l, x) { RouteSound(t, l); }
    forall f | f in t.fixtures ensures Controlled(f) <==> forall x :: !Uncontrolled(f, x) { FixtureControlled(f); }
    forall l, x | l in t.links && (BadType(t, l, x) || BadDirection(t, l, x) || Unrouted(t, l, x))
      ensures Violation(t, x) {
    }
    forall f, x | f in t.fixtures && Uncontrolled(f, x) ensures Violation(t, x) {
    }
    forall r, x | r in t.routes && Unrelayed(t, r, x) ensures Violation(t, x) {
    }
    forall i, j, x | Clash(t.instruments, i, j, x) ensures Violation(t, x) {
    }
    forall x | Shared(t, x) || Occupied(t, x) ensures Violation(t, x) {
    }
    NoneShared(t);
    NoneOccupied(t);
    RelaysExist(t);
    NoneClash(t.instruments);
  }

  /** A well-formed topology has no air link, no link that starts at a test
      point and no link with a relay contact at either end. */
  lemma NeverLinked(t: FixtureTopology, l: Link)
    requires WellFormed(t) && l in t.links
    ensures !l.signal.AirSignal?
    ensures !l.from.entityType.DutTestpoint? && !l.from.entityType.RelayContact? && !l.to.entityType.RelayContact?
  {
    assert SoundLink(t, l);
  }
}
