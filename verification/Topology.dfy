/** Fixture topologies: the entities on the canvas and the links between them. */
module Topology {
  import opened Options

  datatype ChannelType = Voltage | Current | Resistance | DigitalIo | Rf | Thermal

  datatype Direction = Input | Output | Bidirectional

  datatype SignalType = PowerSignal | PlainSignal | GroundSignal | RfSignal | ThermalSignal | AirSignal

  /** A value in a channel's specs; only numbers matter. */
  datatype Spec = Number(value: real) | NotANumber

  /** An instrument channel or a fixture terminal. */
  datatype Channel = Channel(id: string, typ: ChannelType, direction: Direction, specs: map<string, Spec>)

  /** A test point has no direction and no specs. */
  datatype TestPoint = TestPoint(id: string, typ: ChannelType, hasExpectedRange: bool)

  datatype CommunicationType = Gpib | Tcp | Serial | Usb | Custom

  /** "" stands for a missing address, signal, method or route below. */
  datatype Instrument = Instrument(id: string, communication: CommunicationType, address: string,
    channels: seq<Channel>)

  datatype Relay = Relay(id: string, controlSignal: string)

  datatype Actuator = Actuator(id: string, controlMethod: string)

  datatype Fixture = Fixture(id: string, terminals: seq<Channel>, relays: seq<Relay>, actuators: seq<Actuator>)

  datatype Dut = Dut(id: string, testPoints: seq<TestPoint>)

  datatype EndpointType = InstrumentChannel | FixtureTerminal | DutTestpoint | RelayContact

  datatype Endpoint = Endpoint(entityType: EndpointType, entityId: string, portId: string)

  datatype Link = Link(id: string, from: Endpoint, to: Endpoint, signal: SignalType, maxCurrent: Option<real>,
                       routeId: string)

  datatype Route = Route(id: string, links: seq<string>, relays: seq<string>)

  datatype FixtureTopology = FixtureTopology(instruments: seq<Instrument>, fixtures: seq<Fixture>, duts: seq<Dut>,
                                             links: seq<Link>, routes: seq<Route>)

  /** A relay with the id sits in some fixture. */
  ghost predicate RelayExists(t: FixtureTopology, id: string) {
    exists f, r :: f in t.fixtures && r in f.relays && r.id == id
  }

  ghost predicate UniqueEntities(t: FixtureTopology) {
    && (forall i, j :: 0 <= i < j < |t.instruments| ==> t.instruments[i].id != t.instruments[j].id)
    && (forall i, j :: 0 <= i < j < |t.fixtures| ==> t.fixtures[i].id != t.fixtures[j].id)
    && (forall i, j :: 0 <= i < j < |t.duts| ==> t.duts[i].id != t.duts[j].id)
  }
}
