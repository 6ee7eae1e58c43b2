/** The link check the editor runs before a simulation, and how it compares
    with the validator on the server. */
module LinkCheck {
  import opened Options
  import opened Topology
  import TopologyValidator

  datatype Side = From | To

  /** What the message of a problem tells apart. */
  datatype Fault = NoEntity | NoPort

  datatype LinkProblem = LinkProblem(linkId: string, side: Side, at: Endpoint, fault: Fault)

  // ----- what the check means -----

  /** With a repeated id it is the last entity that counts. */
  ghost predicate LastInstrument(t: FixtureTopology, id: string, i: int) {
    && 0 <= i < |t.instruments| && t.instruments[i].id == id
    && forall j :: i < j < |t.instruments| ==> t.instruments[j].id != id
  }

  ghost predicate LastFixture(t: FixtureTopology, id: string, i: int) {
    0 <= i < |t.fixtures| && t.fixtures[i].id == id && forall j :: i < j < |t.fixtures| ==> t.fixtures[j].id != id
  }

  ghost predicate LastDut(t: FixtureTopology, id: string, i: int) {
    0 <= i < |t.duts| && t.duts[i].id == id && forall j :: i < j < |t.duts| ==> t.duts[j].id != id
  }

  predicate HasChannel(cs: seq<Channel>, id: string) {
    exists c :: c in cs && c.id == id
  }

  predicate HasPoint(ps: seq<TestPoint>, id: string) {
    exists p :: p in ps && p.id == id
  }

  ghost predicate EntityKnown(t: FixtureTopology, e: Endpoint) {
    match e.entityType
    case InstrumentChannel => exists i :: LastInstrument(t, e.entityId, i)
    case FixtureTerminal => exists i :: LastFixture(t, e.entityId, i)
    case DutTestpoint => exists i :: LastDut(t, e.entityId, i)
    case RelayContact => RelayExists(t, e.entityId)
  }

  /** Of a relay contact only the relay is looked up. */
  ghost predicate PortKnown(t: FixtureTopology, e: Endpoint) {
    match e.entityType
    case InstrumentChannel =>
      exists i :: LastInstrument(t, e.entityId, i) && HasChannel(t.instruments[i].channels, e.portId)
    case FixtureTerminal => exists i :: LastFixture(t, e.entityId, i) && HasChannel(t.fixtures[i].terminals, e.portId)
    case DutTestpoint => exists i :: LastDut(t, e.entityId, i) && HasPoint(t.duts[i].testPoints, e.portId)
    case RelayContact => RelayExists(t, e.entityId)
  }

  ghost function EndProblems(t: FixtureTopology, link: string, side: Side, e: Endpoint): seq<LinkProblem> {
    if !EntityKnown(t, e) then [LinkProblem(link, side, e, NoEntity)]
    else if !PortKnown(t, e) then [LinkProblem(link, side, e, NoPort)]
    else []
  }

  /** The problems of a list of links, each link's start before its end. */
  ghost function Problems(t: FixtureTopology, links: seq<Link>): seq<LinkProblem> {
    if links == [] then []
    else
      var l := links[|links| - 1];
      Problems(t, links[..|links| - 1]) + EndProblems(t, l.id, From, l.from) + EndProblems(t, l.id, To, l.to)
  }

  /** Some entity of the end's kind has its id. */
  ghost predicate EntityExists(t: FixtureTopology, e: Endpoint) {
    match e.entityType
    case InstrumentChannel => exists i :: 0 <= i < |t.instruments| && t.instruments[i].id == e.entityId
    case FixtureTerminal => exists i :: 0 <= i < |t.fixtures| && t.fixtures[i].id == e.entityId
    case DutTestpoint => exists i :: 0 <= i < |t.duts| && t.duts[i].id == e.entityId
    case RelayContact => RelayExists(t, e.entityId)
  }

  /** What is wrong with an end: there is no such entity, or the last one has no
      such port. */
  ghost predicate Faulty(t: FixtureTopology, e: Endpoint, fault: Fault) {
    match fault
    case NoEntity => !EntityExists(t, e)
    case NoPort => EntityExists(t, e) && !PortKnown(t, e)
  }

  /** The problem is told of this side of the link. */
  ghost predicate Tells(t: FixtureTopology, l: Link, p: LinkProblem) {
    && p.linkId == l.id && p.at == (if p.side.From? then l.from else l.to) && Faulty(t, p.at, p.fault)
  }

  /** Each problem belongs to the link at its place; places rise, and the start
      of a link comes before its end. */
  ghost predicate ToldInOrder(t: FixtureTopology, links: seq<Link>, problems: seq<LinkProblem>, at: seq<int>) {
    && |at| == |problems|
    && (forall a :: 0 <= a < |at| ==> 0 <= at[a] < |links| && Tells(t, links[at[a]], problems[a]))
    && (forall a, b :: 0 <= a < b < |at| ==> Follows(at[a], problems[a], at[b], problems[b]))
  }

  ghost predicate Follows(i: int, p: LinkProblem, j: int, q: LinkProblem) {
    i < j || (i == j && p.side == From && q.side == To)
  }

  lemma LastKnown(t: FixtureTopology, e: Endpoint)
    ensures EntityKnown(t, e) <==> EntityExists(t, e)
  {
    match e.entityType {
      case InstrumentChannel =>
        if i :| 0 <= i < |t.instruments| && t.instruments[i].id == e.entityId { SomeLastInstrument(t, e.entityId, i); }
      case FixtureTerminal =>
        if i :| 0 <= i < |t.fixtures| && t.fixtures[i].id == e.entityId { SomeLastFixture(t, e.entityId, i); }
      case DutTestpoint =>
        if i :| 0 <= i < |t.duts| && t.duts[i].id == e.entityId { SomeLastDut(t, e.entityId, i); }
      case RelayContact =>
    }
  }

  lemma {:induction false} SomeLastInstrument(t: FixtureTopology, id: string, i: int)
    requires 0 <= i < |t.instruments| && t.instruments[i].id == id
    ensures exists k :: LastInstrument(t, id, k)
    decreases |t.instruments| - i
  {
    if j :| i < j < |t.instruments| && t.instruments[j].id == id {
      SomeLastInstrument(t, id, j);
    } else {
      assert LastInstrument(t, id, i);
    }
  }

  lemma {:induction false} SomeLastFixture(t: FixtureTopology, id: string, i: int)
    requires 0 <= i < |t.fixtures| && t.fixtures[i].id == id
    ensures exists k :: LastFixture(t, id, k)
    decreases |t.fixtures| - i
  {
    if j :| i < j < |t.fixtures| && t.fixtures[j].id == id {
      SomeLastFixture(t, id, j);
    } else {
      assert LastFixture(t, id, i);
    }
  }

  lemma {:induction false} SomeLastDut(t: FixtureTopology, id: string, i: int)
    requires 0 <= i < |t.duts| && t.duts[i].id == id
    ensures exists k :: LastDut(t, id, k)
    decreases |t.duts| - i
  {
    if j :| i < j < |t.duts| && t.duts[j].id == id {
      SomeLastDut(t, id, j);
    } else {
      assert LastDut(t, id, i);
    }
  }

  lemma EndTold(t: FixtureTopology, l: Link, side: Side)
    ensures var e := if side.From? then l.from else l.to; var told := EndProblems(t, l.id, side, e);
      && |told| <= 1 && (forall p :: p in told ==> p.side == side)
      && forall p: LinkProblem :: p.side == side ==> (p in told <==> Tells(t, l, p))
  {
    LastKnown(t, if side.From? then l.from else l.to);
  }

  lemma MoreLinks(t: FixtureTopology, links: seq<Link>, n: nat, problems: seq<LinkProblem>, at: seq<int>)
    requires n <= |links| && ToldInOrder(t, links[..n], problems, at)
    ensures ToldInOrder(t, links, problems, at) && forall a :: 0 <= a < |at| ==> at[a] < n
  {
    forall a | 0 <= a < |at| ensures 0 <= at[a] < |links| && Tells(t, links[at[a]], problems[a]) {
      assert links[at[a]] == links[..n][at[a]];
    }
  }

  lemma OneMoreTold(t: FixtureTopology, links: seq<Link>, problems: seq<LinkProblem>, at: seq<int>, i: nat,
                    p: LinkProblem)
    requires ToldInOrder(t, links, problems, at) && i < |links| && Tells(t, links[i], p)
    requires forall a :: 0 <= a < |at| ==> Follows(at[a], problems[a], i, p)
    ensures ToldInOrder(t, links, problems + [p], at + [i])
  {
  }

  /** The problems are told in the order of the links. */
  lemma {:induction false} ProblemsInOrder(t: FixtureTopology, links: seq<Link>) returns (at: seq<int>)
    ensures ToldInOrder(t, links, Problems(t, links), at)
  {
    if links == [] {
      at := [];
    } else {
      var n := |links| - 1;
      var before := Problems(t, links[..n]);
      var init := ProblemsInOrder(t, links[..n]);
      MoreLinks(t, links, n, before, init);
      at := LinkInOrder(t, links, n, before, init);
    }
  }

  lemma LinkInOrder(t: FixtureTopology, links: seq<Link>, n: nat, before: seq<LinkProblem>, init: seq<int>)
    returns (at: seq<int>)
    requires n < |links| && ToldInOrder(t, links, before, init) && forall a :: 0 <= a < |init| ==> init[a] < n
    ensures var l := links[n];
      ToldInOrder(t, links, before + EndProblems(t, l.id, From, l.from) + EndProblems(t, l.id, To, l.to), at)
  {
    var l := links[n];
    var start, end := EndProblems(t, l.id, From, l.from), EndProblems(t, l.id, To, l.to);
    EndTold(t, l, From);
    EndTold(t, l, To);
    var problems := before + start;
    at := init;
    if start == [] {
      assert problems == before;
    } else {
      assert start == [start[0]] && start[0] in start;
      OneMoreTold(t, links, before, init, n, start[0]);
      at := init + [n];
    }
    if end == [] {
      assert problems + end == problems;
    } else {
      assert end == [end[0]] && end[0] in end;
      OneMoreTold(t, links, problems, at, n, end[0]);
      at := at + [n];
    }
  }

  /** Nothing is left out. */
  lemma {:induction false} AllTold(t: FixtureTopology, links: seq<Link>, l: Link, p: LinkProblem)
    requires l in links && Tells(t, l, p)
    ensures p in Problems(t, links)
  {
    var n := |links| - 1;
    EndTold(t, links[n], From);
    EndTold(t, links[n], To);
    if l != links[n] {
      assert l in links[..n];
      AllTold(t, links[..n], l, p);
    }
  }

  // ----- the check -----

  method InstrumentsById(t: FixtureTopology) returns (m: map<string, Instrument>)
    ensures forall id :: id in m ==> exists i :: LastInstrument(t, id, i) && m[id] == t.instruments[i]
    ensures forall i :: 0 <= i < |t.instruments| ==> t.instruments[i].id in m
  {
    m := map[];
    var n := |t.instruments|;
    for k := 0 to n
      invariant forall id :: id in m ==>
        exists i :: 0 <= i < k && t.instruments[i].id == id && m[id] == t.instruments[i]
                    && forall j :: i < j < k ==> t.instruments[j].id != id
      invariant forall i :: 0 <= i < k ==> t.instruments[i].id in m
    {
      m := m[t.instruments[k].id := t.instruments[k]];
    }
    forall id | id in m ensures exists i :: LastInstrument(t, id, i) && m[id] == t.instruments[i] {
      var i :| 0 <= i < n && t.instruments[i].id == id && m[id] == t.instruments[i]
        && forall j :: i < j < n ==> t.instruments[j].id != id;
      assert LastInstrument(t, id, i);
    }
  }

  method FixturesById(t: FixtureTopology) returns (m: map<string, Fixture>)
    ensures forall id :: id in m ==> exists i :: LastFixture(t, id, i) && m[id] == t.fixtures[i]
    ensures forall i :: 0 <= i < |t.fixtures| ==> t.fixtures[i].id in m
  {
    m := map[];
    var n := |t.fixtures|;
    for k := 0 to n
      invariant forall id :: id in m ==>
        exists i :: 0 <= i < k && t.fixtures[i].id == id && m[id] == t.fixtures[i]
                    && forall j :: i < j < k ==> t.fixtures[j].id != id
      invariant forall i :: 0 <= i < k ==> t.fixtures[i].id in m
    {
      m := m[t.fixtures[k].id := t.fixtures[k]];
    }
    forall id | id in m ensures exists i :: LastFixture(t, id, i) && m[id] == t.fixtures[i] {
      var i :| 0 <= i < n && t.fixtures[i].id == id && m[id] == t.fixtures[i]
        && forall j :: i < j < n ==> t.fixtures[j].id != id;
      assert LastFixture(t, id, i);
    }
  }

  /** Test point ids by DUT. */
  method PointsByDut(t: FixtureTopology) returns (m: map<string, set<string>>)
    ensures forall id :: id in m ==> exists i :: LastDut(t, id, i) && m[id] == PointIds(t.duts[i])
    ensures forall i :: 0 <= i < |t.duts| ==> t.duts[i].id in m
  {
    m := map[];
    var n := |t.duts|;
    for k := 0 to n
      invariant forall id :: id in m ==>
        exists i :: 0 <= i < k && t.duts[i].id == id && m[id] == PointIds(t.duts[i])
                    && forall j :: i < j < k ==> t.duts[j].id != id
      invariant forall i :: 0 <= i < k ==> t.duts[i].id in m
    {
      m := m[t.duts[k].id := PointIds(t.duts[k])];
    }
    forall id | id in m ensures exists i :: LastDut(t, id, i) && m[id] == PointIds(t.duts[i]) {
      var i :| 0 <= i < n && t.duts[i].id == id && m[id] == PointIds(t.duts[i])
        && forall j :: i < j < n ==> t.duts[j].id != id;
      assert LastDut(t, id, i);
    }
  }

  function PointIds(d: Dut): set<string> {
    set p | p in d.testPoints :: p.id
  }

  /** The look-up tables built before the links are gone through. */
  datatype Tables = Tables(instruments: map<string, Instrument>, fixtures: map<string, Fixture>,
                           points: map<string, set<string>>, relays: set<string>)

  ghost predicate TablesFor(t: FixtureTopology, b: Tables) {
    && (forall id :: id in b.instruments ==>
         exists i :: LastInstrument(t, id, i) && b.instruments[id] == t.instruments[i])
    && (forall i :: 0 <= i < |t.instruments| ==> t.instruments[i].id in b.instruments)
    && (forall id :: id in b.fixtures ==> exists i :: LastFixture(t, id, i) && b.fixtures[id] == t.fixtures[i])
    && (forall i :: 0 <= i < |t.fixtures| ==> t.fixtures[i].id in b.fixtures)
    && (forall id :: id in b.points ==> exists i :: LastDut(t, id, i) && b.points[id] == PointIds(t.duts[i]))
    && (forall i :: 0 <= i < |t.duts| ==> t.duts[i].id in b.points)
    && (forall id :: id in b.relays <==> RelayExists(t, id))
  }

  method CheckEnd(ghost t: FixtureTopology, b: Tables, link: string, side: Side, e: Endpoint)
    returns (problems: seq<LinkProblem>)
    requires TablesFor(t, b)
    ensures problems == EndProblems(t, link, side, e)
  {
    problems := [];
    match e.entityType {
      case InstrumentChannel =>
        if e.entityId !in b.instruments {
          problems := [LinkProblem(link, side, e, NoEntity)];
        } else if !HasChannel(b.instruments[e.entityId].channels, e.portId) {
          problems := [LinkProblem(link, side, e, NoPort)];
        }
      case FixtureTerminal =>
        if e.entityId !in b.fixtures {
          problems := [LinkProblem(link, side, e, NoEntity)];
        } else if !HasChannel(b.fixtures[e.entityId].terminals, e.portId) {
          problems := [LinkProblem(link, side, e, NoPort)];
        }
      case DutTestpoint =>
        if e.entityId !in b.points {
          problems := [LinkProblem(link, side, e, NoEntity)];
        } else if e.portId !in b.points[e.entityId] {
          problems := [LinkProblem(link, side, e, NoPort)];
        }
      case RelayContact =>
        if e.entityId !in b.relays {
          problems := [LinkProblem(link, side, e, NoEntity)];
        }
    }
  }

  method ValidateTopologyLinks(t: FixtureTopology) returns (problems: seq<LinkProblem>)
    ensures problems == Problems(t, t.links)
    ensures problems == [] <==> forall l :: l in t.links ==> PortKnown(t, l.from) && PortKnown(t, l.to)
    ensures exists at :: ToldInOrder(t, t.links, problems, at)
    ensures forall p :: p in problems <==> exists l :: l in t.links && Tells(t, l, p)
  {
    var instruments := InstrumentsById(t);
    var fixtures := FixturesById(t);
    var points := PointsByDut(t);
    var b := Tables(instruments, fixtures, points, set f, r | f in t.fixtures && r in f.relays :: r.id);
    problems := [];
    for n := 0 to |t.links|
      invariant problems == Problems(t, t.links[..n])
    {
      var l := t.links[n];
      assert t.links[..n + 1][..n] == t.links[..n];
      var start := CheckEnd(t, b, l.id, From, l.from);
      var end := CheckEnd(t, b, l.id, To, l.to);
      problems := problems + start + end;
    }
    assert t.links[..|t.links|] == t.links;
    NoProblems(t, t.links);
    ghost var at := ProblemsInOrder(t, t.links);
    forall l, p | l in t.links && Tells(t, l, p) ensures p in problems { AllTold(t, t.links, l, p); }
    forall p | p in problems ensures exists l :: l in t.links && Tells(t, l, p) {
      var a :| 0 <= a < |problems| && problems[a] == p;
      assert t.links[at[a]] in t.links && Tells(t, t.links[at[a]], p);
    }
  }

  lemma KnownPort(t: FixtureTopology, e: Endpoint)
    requires PortKnown(t, e)
    ensures EntityKnown(t, e)
  {
  }

  lemma {:induction false} NoProblems(t: FixtureTopology, links: seq<Link>)
    ensures Problems(t, links) == [] <==> forall l :: l in links ==> PortKnown(t, l.from) && PortKnown(t, l.to)
  {
    if links != [] {
      var init, l := links[..|links| - 1], links[|links| - 1];
      NoProblems(t, init);
      assert links == init + [l];
      if PortKnown(t, l.from) { KnownPort(t, l.from); }
      if PortKnown(t, l.to) { KnownPort(t, l.to); }
    }
  }

  // ----- against the validator on the server -----

  /** Whatever the editor finds the validator resolves, relay contacts apart. */
  lemma KnownIsResolved(t: FixtureTopology, e: Endpoint)
    requires PortKnown(t, e) && !e.entityType.RelayContact?
    ensures TopologyValidator.Resolve(t, e).Some?
  {
  }

  /** The two look endpoints up differently, first match against last entity.
      With unique ids they differ on relay contacts alone: the editor takes one
      that exists, the validator none. */
  lemma SameEndpoints(t: FixtureTopology, e: Endpoint)
    requires UniqueEntities(t)
    ensures PortKnown(t, e) <==>
      TopologyValidator.Resolve(t, e).Some? || (e.entityType.RelayContact? && RelayExists(t, e.entityId))
  {
    if PortKnown(t, e) && !e.entityType.RelayContact? { KnownIsResolved(t, e); }
    if TopologyValidator.Resolve(t, e).Some? { ResolvedIsKnown(t, e); }
  }

  lemma ResolvedIsKnown(t: FixtureTopology, e: Endpoint)
    requires UniqueEntities(t) && TopologyValidator.Resolve(t, e).Some?
    ensures PortKnown(t, e)
  {
    match e.entityType {
      case InstrumentChannel =>
        var x :| x in t.instruments && x.id == e.entityId && TopologyValidator.ChannelPort(x.channels, e.portId).Some?;
        var i :| 0 <= i < |t.instruments| && t.instruments[i] == x;
        assert LastInstrument(t, e.entityId, i);
      case FixtureTerminal =>
        var x :| x in t.fixtures && x.id == e.entityId && TopologyValidator.ChannelPort(x.terminals, e.portId).Some?;
        var i :| 0 <= i < |t.fixtures| && t.fixtures[i] == x;
        assert LastFixture(t, e.entityId, i);
      case DutTestpoint =>
        var x :| x in t.duts && x.id == e.entityId && TopologyValidator.PointPort(x.testPoints, e.portId).Some?;
        var i :| 0 <= i < |t.duts| && t.duts[i] == x;
        assert LastDut(t, e.entityId, i);
    }
  }

  /** With unique ids, a topology the server accepts has no link problem. */
  lemma AcceptedHasNoProblems(t: FixtureTopology)
    requires UniqueEntities(t) && TopologyValidator.WellFormed(t)
    ensures Problems(t, t.links) == []
  {
    forall l | l in t.links ensures PortKnown(t, l.from) && PortKnown(t, l.to) {
      assert TopologyValidator.SoundLink(t, l);
      ResolvedIsKnown(t, l.from);
      ResolvedIsKnown(t, l.to);
    }
    NoProblems(t, t.links);
  }

  /** A later entity with the same id lacks the port. */
  ghost predicate Shadowed(t: FixtureTopology, e: Endpoint) {
    match e.entityType
    case InstrumentChannel =>
      exists i :: LastInstrument(t, e.entityId, i) && !HasChannel(t.instruments[i].channels, e.portId)
    case FixtureTerminal => exists i :: LastFixture(t, e.entityId, i) && !HasChannel(t.fixtures[i].terminals, e.portId)
    case DutTestpoint => exists i :: LastDut(t, e.entityId, i) && !HasPoint(t.duts[i].testPoints, e.portId)
    case RelayContact => false
  }

  /** In general the two agree on what the server accepts exactly when no end
      of a link is shadowed. */
  lemma AcceptedHasNoProblemsIff(t: FixtureTopology)
    requires TopologyValidator.WellFormed(t)
    ensures Problems(t, t.links) == [] <==> forall l :: l in t.links ==> !Shadowed(t, l.from) && !Shadowed(t, l.to)
  {
    forall l | l in t.links
      ensures (PortKnown(t, l.from) <==> !Shadowed(t, l.from)) && (PortKnown(t, l.to) <==> !Shadowed(t, l.to))
    {
      assert TopologyValidator.SoundLink(t, l);
      ResolvedKnownUnlessShadowed(t, l.from);
      ResolvedKnownUnlessShadowed(t, l.to);
    }
    NoProblems(t, t.links);
  }

  lemma ResolvedKnownUnlessShadowed(t: FixtureTopology, e: Endpoint)
    requires TopologyValidator.Resolve(t, e).Some?
    ensures PortKnown(t, e) <==> !Shadowed(t, e)
  {
    match e.entityType {
      case InstrumentChannel =>
        var x :| x in t.instruments && x.id == e.entityId;
        var k :| 0 <= k < |t.instruments| && t.instruments[k] == x;
        assert InstrumentIds(t)[k] == e.entityId;
        var i := TheLast(InstrumentIds(t), k);
        LastIsUnique(t, e, i);
      case FixtureTerminal =>
        var x :| x in t.fixtures && x.id == e.entityId;
        var k :| 0 <= k < |t.fixtures| && t.fixtures[k] == x;
        assert FixtureIds(t)[k] == e.entityId;
        var i := TheLast(FixtureIds(t), k);
        LastIsUnique(t, e, i);
      case DutTestpoint =>
        var x :| x in t.duts && x.id == e.entityId;
        var k :| 0 <= k < |t.duts| && t.duts[k] == x;
        assert DutIds(t)[k] == e.entityId;
        var i := TheLast(DutIds(t), k);
        LastIsUnique(t, e, i);
    }
  }

  /** The ids an endpoint's entity is looked up among. */
  ghost function IdsFor(t: FixtureTopology, e: Endpoint): seq<string> {
    match e.entityType
    case InstrumentChannel => InstrumentIds(t)
    case FixtureTerminal => FixtureIds(t)
    case DutTestpoint => DutIds(t)
    case RelayContact => []
  }

  lemma LastIsUnique(t: FixtureTopology, e: Endpoint, i: nat)
    requires var ids := IdsFor(t, e);
      i < |ids| && ids[i] == e.entityId && forall j :: i < j < |ids| ==> ids[j] != e.entityId
    ensures PortKnown(t, e) <==> !Shadowed(t, e)
  {
    match e.entityType {
      case InstrumentChannel =>
        assert forall j :: 0 <= j < |t.instruments| ==> InstrumentIds(t)[j] == t.instruments[j].id;
        assert LastInstrument(t, e.entityId, i);
      case FixtureTerminal =>
        assert forall j :: 0 <= j < |t.fixtures| ==> FixtureIds(t)[j] == t.fixtures[j].id;
        assert LastFixture(t, e.entityId, i);
      case DutTestpoint =>
        assert forall j :: 0 <= j < |t.duts| ==> DutIds(t)[j] == t.duts[j].id;
        assert LastDut(t, e.entityId, i);
    }
  }

  ghost function InstrumentIds(t: FixtureTopology): seq<string> {
    seq(|t.instruments|, i requires 0 <= i < |t.instruments| => t.instruments[i].id)
  }

  ghost function FixtureIds(t: FixtureTopology): seq<string> {
    seq(|t.fixtures|, i requires 0 <= i < |t.fixtures| => t.fixtures[i].id)
  }

  ghost function DutIds(t: FixtureTopology): seq<string> {
    seq(|t.duts|, i requires 0 <= i < |t.duts| => t.duts[i].id)
  }

  lemma {:induction false} TheLast(ids: seq<string>, k: nat) returns (i: nat)
    requires k < |ids|
    ensures i < |ids| && ids[i] == ids[k] && forall j :: i < j < |ids| ==> ids[j] != ids[k]
    decreases |ids|
  {
    i := |ids| - 1;
    if ids[i] != ids[k] { i := TheLast(ids[..i], k); }
  }

  /** Without unique ids it can: the validator finds the channel on the first
      instrument, the editor looks at the last, which has none. */
  lemma RepeatedIdDisagrees()
    ensures exists t :: TopologyValidator.WellFormed(t) && Problems(t, t.links) != []
  {
    var channel := Channel("1", Voltage, Output, map[]);
    var source, target := Endpoint(InstrumentChannel, "A", "1"), Endpoint(DutTestpoint, "D", "p");
    var link := Link("L", source, target, PlainSignal, None, "");
    var t := FixtureTopology([Instrument("A", Usb, "", [channel]), Instrument("A", Usb, "", [])], [],
                             [Dut("D", [TestPoint("p", Voltage, false)])], [link], []);
    assert TopologyValidator.SoundLink(t, link) by {
      assert TopologyValidator.InstrumentPort(t.instruments, "A", "1") ==
        Some(TopologyValidator.Port(Voltage, Some(Output), map[]));
      assert TopologyValidator.DutPort(t.duts, "D", "p") == Some(TopologyValidator.Port(Voltage, None, map[]));
    }
    assert TopologyValidator.WellFormed(t);
    assert t.instruments[1].id == "A" && t.instruments[1].channels == [];
    assert !PortKnown(t, link.from);
    NoProblems(t, t.links);
  }

  /** And the converse fails: a link to an existing relay is no problem for the
      editor and never accepted by the server. */
  lemma RelayContactDisagrees()
    ensures exists t :: UniqueEntities(t) && Problems(t, t.links) == [] && !TopologyValidator.WellFormed(t)
  {
    var relay := Endpoint(RelayContact, "K", "no");
    var fixture := Fixture("F", [], [Relay("K", "gpio1")], []);
    var link := Link("L", relay, relay, PlainSignal, None, "");
    var t := FixtureTopology([], [fixture], [], [link], []);
    assert RelayExists(t, "K") by { assert fixture in t.fixtures && fixture.relays[0] in fixture.relays; }
    assert PortKnown(t, relay);
    NoProblems(t, t.links);
    assert !TopologyValidator.SoundLink(t, link);
    assert link in t.links;
  }
}
