/**
 * The two stores a provider-added event updates, as values: the connection
 * log handed to `ClusterListenerManager.addConnect`, and the
 * `RegistryManager` table from service name to the servers known for it.
 */
module Registry {
  import opened Sequences
  import opened JavaText
  import opened Resolution
  import opened AddressList

  /** `ConnectInfo`: a service, a `host:port` connect string and a weight. */
  datatype ConnectInfo = ConnectInfo(serviceName: string, connect: string, weight: int)

  /**
   * A server as `RegistryManager` keeps it: its connect string and weight.
   * A `HostInfo(host, port, weight)` names the server `host:port` with that weight.
   */
  datatype Server = Server(connect: string, weight: int)

  type ServerTable = map<string, set<Server>>

  /** The connect string `host + ":" + port`. */
  function ConnectString(host: string, port: int): string {
    host + ":" + IntToString(port)
  }

  /** What a provider-added event hands to the cluster store. */
  function AddedConnect(e: ProviderEvent): ConnectInfo {
    ConnectInfo(e.serviceName, ConnectString(e.host, e.port), e.weight)
  }

  /** The server an event names: `new HostInfo(host, port, weight)`. */
  function ServerOf(e: ProviderEvent): Server {
    Server(ConnectString(e.host, e.port), e.weight)
  }

  /** The servers recorded for a service (none when it is unknown). */
  function Servers(table: ServerTable, serviceName: string): set<Server> {
    if serviceName in table then table[serviceName] else {}
  }

  /** `addServiceServer(serviceName, connect, weight)`. */
  function AddServer(table: ServerTable, serviceName: string, s: Server): (r: ServerTable)
    ensures r.Keys == table.Keys + {serviceName}
    ensures s in Servers(r, serviceName) && Servers(table, serviceName) <= Servers(r, serviceName)
  {
    table[serviceName := Servers(table, serviceName) + {s}]
  }

  /** `removeServiceServer(serviceName, hostInfo)`: an unknown service is left alone. */
  function RemoveServer(table: ServerTable, serviceName: string, s: Server): (r: ServerTable)
    ensures r.Keys == table.Keys
    ensures s !in Servers(r, serviceName) && Servers(r, serviceName) <= Servers(table, serviceName)
  {
    if serviceName in table then table[serviceName := table[serviceName] - {s}] else table
  }

  /** The table after registering the server of each event, first to last. */
  function RegisterAll(table: ServerTable, events: seq<ProviderEvent>): (r: ServerTable)
    ensures table.Keys <= r.Keys
    ensures forall e :: e in events ==> e.serviceName in r && ServerOf(e) in r[e.serviceName]
  {
    if |events| == 0 then table
    else
      var last := events[|events| - 1];
      AddServer(RegisterAll(table, events[..|events| - 1]), last.serviceName, ServerOf(last))
  }

  /** What the cluster store receives for the events, in order. */
  function ConnectsOf(events: seq<ProviderEvent>): seq<ConnectInfo> {
    MapSeq(AddedConnect, events)
  }

  /** The cluster store receives one connection per event, the `k`-th for the `k`-th event. */
  lemma ConnectsOfEach(events: seq<ProviderEvent>)
    ensures |ConnectsOf(events)| == |events|
    ensures forall k :: 0 <= k < |events| ==> ConnectsOf(events)[k] == AddedConnect(events[k])
  {
    MapSeqEach(AddedConnect, events);
  }

  /** Registering one more event extends both stores by that event alone. */
  lemma RecordOne(table: ServerTable, connects: seq<ConnectInfo>, events: seq<ProviderEvent>, e: ProviderEvent)
    ensures RegisterAll(table, events + [e]) == AddServer(RegisterAll(table, events), e.serviceName, ServerOf(e))
    ensures connects + ConnectsOf(events + [e]) == (connects + ConnectsOf(events)) + [AddedConnect(e)]
  {
    assert (events + [e])[..|events|] == events;
    assert ConnectsOf(events + [e]) == ConnectsOf(events) + [AddedConnect(e)];
    assert connects + (ConnectsOf(events) + [AddedConnect(e)]) == (connects + ConnectsOf(events)) + [AddedConnect(e)];
  }

  /**
   * Sequence concatenation regroups. Dafny knows this, but calling it as a
   * lemma keeps the proof of the bootstrap loop small: the loop's proof
   * then sees one instance instead of both sides' element-wise expansions.
   */
  lemma Associative<T>(a: seq<T>, b: seq<T>, c: seq<T>)
    ensures a + (b + c) == (a + b) + c
  {
  }

  /** Adding a server puts it in its service's set and changes no other entry. */
  lemma AddServerEffect(table: ServerTable, serviceName: string, s: Server, other: string)
    ensures Servers(AddServer(table, serviceName, s), serviceName) == Servers(table, serviceName) + {s}
    ensures other != serviceName ==> Servers(AddServer(table, serviceName, s), other) == Servers(table, other)
  {
  }

  /**
   * Removing takes out exactly the given (connect, weight) server: the same
   * connect string with another weight stays, and other services are untouched.
   */
  lemma RemoveServerEffect(table: ServerTable, serviceName: string, s: Server, other: string)
    ensures Servers(RemoveServer(table, serviceName, s), serviceName) == Servers(table, serviceName) - {s}
    ensures other != serviceName ==> Servers(RemoveServer(table, serviceName, s), other) == Servers(table, other)
    ensures forall t :: t in Servers(table, serviceName) && t != s ==> t in Servers(RemoveServer(table, serviceName, s), serviceName)
  {
  }

  /** Removing what was just added, when it was not there before, restores every service's servers. */
  lemma RemoveUndoesAdd(table: ServerTable, e: ProviderEvent, other: string)
    requires ServerOf(e) !in Servers(table, e.serviceName)
    ensures Servers(RemoveServer(AddServer(table, e.serviceName, ServerOf(e)), e.serviceName, ServerOf(e)), other)
         == Servers(table, other)
  {
  }

  /** The servers that events name for one service. */
  function ServersFor(events: seq<ProviderEvent>, serviceName: string): set<Server> {
    if |events| == 0 then {}
    else
      var last := events[|events| - 1];
      ServersFor(events[..|events| - 1], serviceName) + (if last.serviceName == serviceName then {ServerOf(last)} else {})
  }

  /** A server is named for a service exactly when one of the events for that service names it. */
  lemma ServersForMembers(events: seq<ProviderEvent>, serviceName: string, x: Server)
    ensures x in ServersFor(events, serviceName) <==>
      exists k :: 0 <= k < |events| && events[k].serviceName == serviceName && ServerOf(events[k]) == x
  {
    if x in ServersFor(events, serviceName) {
      var k := ServersForSource(events, serviceName, x);
    }
    forall k | 0 <= k < |events| && events[k].serviceName == serviceName && ServerOf(events[k]) == x
      ensures x in ServersFor(events, serviceName)
    {
      ServersForIncludes(events, serviceName, k);
    }
  }

  /** Each server named for a service comes from an event for that service. */
  lemma {:induction false} ServersForSource(events: seq<ProviderEvent>, serviceName: string, x: Server) returns (k: nat)
    requires x in ServersFor(events, serviceName)
    ensures k < |events| && events[k].serviceName == serviceName && ServerOf(events[k]) == x
  {
    var init := events[..|events| - 1];
    var last := events[|events| - 1];
    if x in ServersFor(init, serviceName) {
      k := ServersForSource(init, serviceName, x);
      assert events[k] == init[k];
    } else {
      k := |events| - 1;
    }
  }

  /** Each event for a service names its server for that service. */
  lemma {:induction false} ServersForIncludes(events: seq<ProviderEvent>, serviceName: string, k: nat)
    requires k < |events| && events[k].serviceName == serviceName
    ensures ServerOf(events[k]) in ServersFor(events, serviceName)
  {
    var init := events[..|events| - 1];
    if k < |init| {
      assert events[k] == init[k];
      ServersForIncludes(init, serviceName, k);
    }
  }

  /** After registering a list of events, a service has its old servers plus those its events name, and no others. */
  lemma {:induction false} RegisterAllEffect(table: ServerTable, events: seq<ProviderEvent>, serviceName: string)
    ensures Servers(RegisterAll(table, events), serviceName) == Servers(table, serviceName) + ServersFor(events, serviceName)
  {
    if |events| > 0 {
      RegisterAllEffect(table, events[..|events| - 1], serviceName);
    }
  }

  /**
   * A host without ':' and an `int` port make a connect string that parses
   * back, as an address-list segment, into the same host and port.
   */
  lemma ConnectStringParses(serviceName: string, host: string, port: int, weightOf: string -> Lookup<int>)
    requires ':' !in host && IsInt32(port)
    requires weightOf(ConnectString(host, port)).Returned?
    ensures ParseEntry(serviceName, ConnectString(host, port), weightOf) ==
      Emit(ProviderEvent(serviceName, host, port, weightOf(ConnectString(host, port)).value))
  {
    var digits := IntToString(port);
    var connect := ConnectString(host, port);
    IntToStringShape(port);
    ParseIntToString(port);
    assert connect[|host|] == ':' && connect[..|host|] == host;
    assert !AllWhitespace(connect) by { assert !IsWhitespace(connect[|host|]); }
    TakeUntilAt(connect, ':', |host|);
    AfterAt(connect, ':', |host|);
    assert connect[|host| + 1..] == digits;
    assert ':' !in digits by {
      forall i | 0 <= i < |digits| ensures digits[i] != ':' {
        assert digits[i] == '-' || IsDigit(digits[i]);
      }
    }
    TakeUntilNone(digits, ':');
    EntryEmits(serviceName, connect, weightOf);
  }

  /** The host of an emitted event never holds ':', so its connect string parses back into the same event. */
  lemma EmittedConnectParses(serviceName: string, segment: string, weightOf: string -> Lookup<int>,
                             weightOfConnect: string -> Lookup<int>)
    requires ParseEntry(serviceName, segment, weightOf).Emit?
    requires weightOfConnect(AddedConnect(ParseEntry(serviceName, segment, weightOf).event).connect)
          == Returned(ParseEntry(serviceName, segment, weightOf).event.weight)
    ensures ParseEntry(serviceName, AddedConnect(ParseEntry(serviceName, segment, weightOf).event).connect, weightOfConnect)
         == ParseEntry(serviceName, segment, weightOf)
  {
    var e := ParseEntry(serviceName, segment, weightOf).event;
    EntryEmits(serviceName, segment, weightOf);
    FieldsHead(segment, ':');
    assert ':' !in e.host;
    ConnectStringParses(serviceName, e.host, e.port, weightOfConnect);
  }
}
