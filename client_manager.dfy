/**
 * `ClientManager` as an object: the provider events it publishes while
 * bootstrapping a service, and the two stores its provider-change listener
 * updates (the cluster store and the server registry). The heartbeat and
 * reconnect workers it starts, and its locking, are not part of this model.
 */
module ClientManagerModel {
  import opened Wrappers
  import opened JavaText
  import opened Resolution
  import opened AddressList
  import opened Registry

  class ClientManager {
    /** The provider-added events published through `RegistryEventListener`, in order. */
    var published: seq<ProviderEvent>
    /** Every `ConnectInfo` handed to `ClusterListenerManager.addConnect`, in order. */
    var connects: seq<ConnectInfo>
    /** `RegistryManager`'s servers per service. */
    var registry: ServerTable

    /** A manager that has seen no provider yet. */
    constructor ()
      ensures published == [] && connects == [] && registry == map[]
    {
      published := [];
      connects := [];
      registry := map[];
    }

    /** `registerClient`: tell the cluster store and the registry about one server. */
    method RegisterClient(serviceName: string, connect: string, weight: int)
      modifies this
      ensures connects == old(connects) + [ConnectInfo(serviceName, connect, weight)]
      ensures registry == AddServer(old(registry), serviceName, Server(connect, weight))
      ensures published == old(published)
    {
      connects := connects + [ConnectInfo(serviceName, connect, weight)];
      registry := AddServer(registry, serviceName, Server(connect, weight));
    }

    /** The listener's `providerAdded`: register `host + ":" + port` with the event's weight. */
    method ProviderAdded(e: ProviderEvent)
      modifies this
      ensures connects == old(connects) + [AddedConnect(e)]
      ensures registry == AddServer(old(registry), e.serviceName, ServerOf(e))
      ensures published == old(published)
    {
      RegisterClient(e.serviceName, ConnectString(e.host, e.port), e.weight);
    }

    /** The listener's `providerRemoved`: drop the matching (host, port, weight) server from the registry only. */
    method ProviderRemoved(e: ProviderEvent)
      modifies this
      ensures registry == RemoveServer(old(registry), e.serviceName, ServerOf(e))
      ensures connects == old(connects) && published == old(published)
    {
      registry := RemoveServer(registry, e.serviceName, ServerOf(e));
    }

    /** The listener's `hostWeightChanged` does nothing. */
    method HostWeightChanged(e: ProviderEvent)
      ensures unchanged(this)
    {
    }

    /**
     * `RegistryEventListener.providerAdded` as this manager sees it: the
     * event is published and delivered to the manager's own listener.
     */
    method PublishProviderAdded(e: ProviderEvent)
      modifies this
      ensures published == old(published) + [e]
      ensures connects == old(connects) + [AddedConnect(e)]
      ensures registry == AddServer(old(registry), e.serviceName, ServerOf(e))
    {
      published := published + [e];
      ProviderAdded(e);
    }

    /**
     * `findAndRegisterClientFor(serviceName, group, vip)`. The environment,
     * the discovery answer for (serviceName, group) and the weight lookup are
     * the answers of the external collaborators. Returns the exception the
     * call ends with, or `None`; the events emitted before a failure stay.
     */
    method FindAndRegisterClientFor(serviceName: string, vip: Option<string>, env: Lookup<Option<string>>,
                                    discovery: Lookup<Option<string>>, weightOf: string -> Lookup<int>)
      returns (failure: Option<Failure>)
      modifies this
      ensures var plan := Bootstrap(serviceName, vip, env, discovery, weightOf);
        failure == plan.failure &&
        published == old(published) + plan.events &&
        connects == old(connects) + ConnectsOf(plan.events) &&
        registry == RegisterAll(old(registry), plan.events)
    {
      var resolved := ResolveAddress(vip, env, discovery);
      if resolved.Err? {
        return Some(resolved.error);
      }
      var serviceAddress := resolved.value;
      if IsBlank(serviceAddress) {
        return Some(NoServiceAddress);
      }
      var addressList := Split(Trim(serviceAddress.value), ',');
      failure := RegisterAddressList(serviceName, addressList, weightOf);
    }

    /**
     * One turn of the loop of `findAndRegisterClientFor`: a blank segment is
     * skipped; otherwise the segment is split on ':', `parts[0]` is the host
     * (which throws outside the `try` when there are no parts), the weight is
     * looked up with the untrimmed segment, `parts[1]` is parsed as the port,
     * and the provider-added event is published.
     */
    method RegisterSegment(serviceName: string, segment: string, weightOf: string -> Lookup<int>)
      returns (failure: Option<Failure>)
      modifies this
      ensures match ParseEntry(serviceName, segment, weightOf)
        case Skip => failure.None? && unchanged(this)
        case Fail(f) => failure == Some(f) && unchanged(this)
        case Emit(e) =>
          failure.None? &&
          published == old(published) + [e] &&
          connects == old(connects) + [AddedConnect(e)] &&
          registry == AddServer(old(registry), e.serviceName, ServerOf(e))
    {
      if AllWhitespace(segment) {
        return None;
      }
      var parts := Split(segment, ':');
      if |parts| == 0 {
        return Some(HostMissing(segment));
      }
      var host := parts[0];
      var weight := weightOf(segment);
      if weight.Threw? {
        return Some(EntryFailed(segment, WeightLookupFailed));
      }
      if |parts| < 2 {
        return Some(EntryFailed(segment, PortMissing));
      }
      var port := ParseInt(parts[1]);
      if port.None? {
        return Some(EntryFailed(segment, PortNotInteger));
      }
      PublishProviderAdded(ProviderEvent(serviceName, host, port.value, weight.value));
      return None;
    }

    /**
     * The loop of `findAndRegisterClientFor` over the comma-separated
     * segments: each non-blank `host:port` segment has its weight looked up,
     * its port parsed, and a provider-added event published; the first bad
     * segment ends the loop with its exception.
     */
    method RegisterAddressList(serviceName: string, addressList: seq<string>, weightOf: string -> Lookup<int>)
      returns (failure: Option<Failure>)
      modifies this
      ensures var plan := PlanEntries(serviceName, addressList, weightOf);
        failure == plan.failure && Recorded(old(published), old(connects), old(registry), plan.events)
    {
      ghost var outcomes := Outcomes(serviceName, addressList, weightOf);
      ghost var done: seq<ProviderEvent> := [];
      for i := 0 to |addressList|
        invariant Run(outcomes) == Plan(done + Run(outcomes[i..]).events, Run(outcomes[i..]).failure)
        invariant Recorded(old(published), old(connects), old(registry), done)
      {
        ghost var outcome := outcomes[i];
        assert outcomes[i..][0] == outcome && outcomes[i..][1..] == outcomes[i + 1..];
        failure := RegisterSegment(serviceName, addressList[i], weightOf);
        if failure.Some? {
          assert Run(outcomes[i..]).events == [] && done + [] == done;
          return;
        }
        if outcome.Emit? {
          RecordOne(old(registry), old(connects), done, outcome.event);
          Associative(old(published), done, [outcome.event]);
          Associative(done, [outcome.event], Run(outcomes[i + 1..]).events);
          done := done + [outcome.event];
        }
      }
      assert outcomes[|addressList|..] == [] && done + [] == done;
      return None;
    }

    /** The stores hold what they held before, followed by what `events` added. */
    ghost predicate Recorded(published0: seq<ProviderEvent>, connects0: seq<ConnectInfo>, registry0: ServerTable,
                             events: seq<ProviderEvent>)
      reads this
    {
      published == published0 + events &&
      connects == connects0 + ConnectsOf(events) &&
      registry == RegisterAll(registry0, events)
    }
  }

  /**
   * Bootstrapping a fresh manager registers, in the registry, exactly the
   * servers of the events the bootstrap emitted for the service.
   */
  lemma BootstrapRegistersEmitted(serviceName: string, vip: Option<string>, env: Lookup<Option<string>>,
                                  discovery: Lookup<Option<string>>, weightOf: string -> Lookup<int>)
    ensures var events := Bootstrap(serviceName, vip, env, discovery, weightOf).events;
      (forall k :: 0 <= k < |events| ==> ServerOf(events[k]) in Servers(RegisterAll(map[], events), serviceName)) &&
      (forall x :: x in Servers(RegisterAll(map[], events), serviceName) ==>
         exists k :: 0 <= k < |events| && ServerOf(events[k]) == x)
  {
    var events := Bootstrap(serviceName, vip, env, discovery, weightOf).events;
    BootstrapEventsForService(serviceName, vip, env, discovery, weightOf);
    FreshRegistryHolds(events, serviceName);
  }

  /** Events all for one service, registered in an empty registry, give that service exactly their servers. */
  lemma FreshRegistryHolds(events: seq<ProviderEvent>, serviceName: string)
    requires forall e :: e in events ==> e.serviceName == serviceName
    ensures forall k :: 0 <= k < |events| ==> ServerOf(events[k]) in Servers(RegisterAll(map[], events), serviceName)
    ensures forall x :: x in Servers(RegisterAll(map[], events), serviceName) ==>
      exists k :: 0 <= k < |events| && ServerOf(events[k]) == x
  {
    RegisterAllEffect(map[], events, serviceName);
    forall x ensures x in ServersFor(events, serviceName) <==> exists k :: 0 <= k < |events| && ServerOf(events[k]) == x {
      ServersForMembers(events, serviceName, x);
    }
  }

  /** Every event a bootstrap emits is for the service being bootstrapped. */
  lemma BootstrapEventsForService(serviceName: string, vip: Option<string>, env: Lookup<Option<string>>,
                                  discovery: Lookup<Option<string>>, weightOf: string -> Lookup<int>)
    ensures forall e :: e in Bootstrap(serviceName, vip, env, discovery, weightOf).events ==> e.serviceName == serviceName
  {
    match SelectAddress(vip, env, discovery)
    case Err(_) =>
    case Ok(address) => PlanEventsForService(serviceName, Split(Trim(address), ','), weightOf);
  }

  lemma PlanEventsForService(serviceName: string, segments: seq<string>, weightOf: string -> Lookup<int>)
    ensures forall e :: e in PlanEntries(serviceName, segments, weightOf).events ==> e.serviceName == serviceName
  {
    var outcomes := Outcomes(serviceName, segments, weightOf);
    RunEventsEmitted(outcomes);
    forall e | e in PlanEntries(serviceName, segments, weightOf).events ensures e.serviceName == serviceName {
      var k :| 0 <= k < |outcomes| && outcomes[k] == Emit(e);
      assert ParseEntry(serviceName, segments[k], weightOf) == Emit(e);
    }
  }
}
