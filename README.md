# Pigeon `ClientManager`, modelled in Dafny

This project models the invoker-side `ClientManager` of the Pigeon RPC framework
(`pigeon-remoting/src/main/java/com/dianping/pigeon/remoting/invoker/ClientManager.java`).
The model covers three parts of it:

- **Bootstrapping a service** (`findAndRegisterClientFor`).
  - The address string comes from one of two places:
    - the static fallback address (the "vip"), used directly in the `dev` environment;
    - the discovery backend, with the vip as fallback when the backend answers `null` or throws.
  - The address is trimmed, split on `,`, and every non-blank `host:port` segment is split on `:`.
  - The segment's weight is looked up, its port is parsed, and a provider-added event is published, in list order.
  - The first bad segment ends the call with an exception. Events already published stay published.
- **Choosing candidate clients for a call** (`getClient`). The service's client list is copied, every excluded client is removed from the copy, and the rest goes to the router.
- **Reacting to provider changes** (`registerClient` and the inner `ServiceProviderChangeListener`).
  - An added provider is registered as `host:port` with its weight, in both the cluster store and the server registry.
  - A removed provider is taken out of the registry.
  - A weight change does nothing.

Modules, one file each:

| file | module | what it holds |
|---|---|---|
| `wrappers.dfy` | `Wrappers` | `Option` and `Result` |
| `java_text.dfy` | `JavaText` | The Java library behaviour the parser depends on: `StringUtils.isBlank`, `String.trim`, `String.split` with one separator character, `Integer.parseInt` and `Integer.toString` |
| `resolution.dfy` | `Resolution` | The choice of the address string |
| `address_list.dfy` | `AddressList` | One segment's outcome, and `Bootstrap`, the specification of the whole call (events and final exception) |
| `registry.dfy` | `Registry` | The cluster store and the server registry as values |
| `sequences.dfy` | `Sequences` | Mapping a function over a sequence, with its element-wise and concatenation lemmas |
| `client_filter.dfy` | `ClientFilter` | `getClient`: in-place compaction of the copied array, proved equal to a filter function |
| `client_manager.dfy` | `ClientManagerModel` | Class `ClientManager`, whose fields are the published events and the two stores |

Inside `ClientManagerModel`:
- `FindAndRegisterClientFor` runs the loop over the segments.
- The listener handlers are methods that update the fields.

Each method is proved against the functions of the other modules.

Collaborators outside this class are modelled as inputs of type `Lookup<T> = Returned(value) | Threw`:
- `configManager.getEnv()`;
- `RegistryManager.getServiceAddress(serviceName, group)`;
- `RegistryManager.getServiceWeight(segment)`.

A `null` value is `None`.

## Model

| member | source | states |
|---|---|---|
| Resolution.SelectAddressCases | pigeon-remoting/src/main/java/com/dianping/pigeon/remoting/invoker/ClientManager.java:107-132 | A chosen address is either the vip or the discovery answer. The choice fails with `DiscoveryFailed` exactly when discovery threw and the vip is blank. With a vip set, the only way to fail is a discovery answer that is non-null but blank. |
| JavaText.IsWhitespace | pigeon-remoting/src/main/java/com/dianping/pigeon/remoting/invoker/ClientManager.java:110-142 | `Character.isWhitespace`: space, tab, newline and carriage return are whitespace. Digits, signs, ':' and ',' are not. |
| JavaText.IsBlank | pigeon-remoting/src/main/java/com/dianping/pigeon/remoting/invoker/ClientManager.java:110-142 | `StringUtils.isBlank`: null and the empty string are blank. A blank string holds neither ':' nor ','. |
| Resolution.TryResolve | pigeon-remoting/src/main/java/com/dianping/pigeon/remoting/invoker/ClientManager.java:109-117 | The `try` block. When it returns, the address is the vip or exactly the discovery answer. It throws only when `getEnv` or `getServiceAddress` threw. |
| Resolution.ResolveAddress | pigeon-remoting/src/main/java/com/dianping/pigeon/remoting/invoker/ClientManager.java:108-127 | The `try`/`catch`. A successful result is the vip or exactly the discovery answer. The only failure is `DiscoveryFailed`, and it happens only with a blank vip after an exception from `getEnv` or discovery. |
| Resolution.DevModeUsesVip | pigeon-remoting/src/main/java/com/dianping/pigeon/remoting/invoker/ClientManager.java:110-111 | With a non-blank vip and environment "dev", the address is the vip, whatever discovery would answer. |
| Resolution.DiscoveryAnswerWins | pigeon-remoting/src/main/java/com/dianping/pigeon/remoting/invoker/ClientManager.java:112-117 | Outside dev mode, or with a blank vip, a non-null discovery answer is used as it is, even when a vip is set. |
| Resolution.NullAnswerFallsBack | pigeon-remoting/src/main/java/com/dianping/pigeon/remoting/invoker/ClientManager.java:113-116 | A null discovery answer becomes the vip when the vip is non-blank. Otherwise the call fails with "no service address". |
| Resolution.DiscoveryThrows | pigeon-remoting/src/main/java/com/dianping/pigeon/remoting/invoker/ClientManager.java:118-127 | If discovery throws: a blank vip makes the call fail, and a non-blank vip becomes the address with no error raised. |
| Resolution.BlankAnswerFails | pigeon-remoting/src/main/java/com/dianping/pigeon/remoting/invoker/ClientManager.java:114-132 | An empty or whitespace discovery answer is not replaced by the vip. The call fails with "no service address". |
| Resolution.EnvConsultedOnlyWithVip | pigeon-remoting/src/main/java/com/dianping/pigeon/remoting/invoker/ClientManager.java:110-126 | With a blank vip the environment's answer makes no difference. With a vip set, an exception from `getEnv` is caught and the vip is used. |
| Resolution.SelectAddress | pigeon-remoting/src/main/java/com/dianping/pigeon/remoting/invoker/ClientManager.java:129-132 | An address that passes the blank check is not all whitespace. |
| AddressList.BlankAddressEmitsNothing | pigeon-remoting/src/main/java/com/dianping/pigeon/remoting/invoker/ClientManager.java:129-132 | A null or blank resolved address fails the call with `NoServiceAddress` before any event is emitted. |
| AddressList.SelectionFailureEmitsNothing | pigeon-remoting/src/main/java/com/dianping/pigeon/remoting/invoker/ClientManager.java:118-132 | Whenever the address choice fails, the call raises that failure and emits no event. |
| AddressList.Bootstrap | pigeon-remoting/src/main/java/com/dianping/pigeon/remoting/invoker/ClientManager.java:107-155 | The whole call. No event is emitted unless the address choice succeeded. A failed choice is the call's exception. |
| AddressList.Run | pigeon-remoting/src/main/java/com/dianping/pigeon/remoting/invoker/ClientManager.java:141-154 | The loop over the outcomes emits at most one event per segment. An exception it ends with is one of the segments' failures. |
| AddressList.PlanEntries | pigeon-remoting/src/main/java/com/dianping/pigeon/remoting/invoker/ClientManager.java:141-154 | The loop over the segments emits at most one event per segment. |
| AddressList.ParseEntry | pigeon-remoting/src/main/java/com/dianping/pigeon/remoting/invoker/ClientManager.java:142-152 | An emitted event is for the service being bootstrapped. |
| AddressList.EntrySkips | pigeon-remoting/src/main/java/com/dianping/pigeon/remoting/invoker/ClientManager.java:142 | A segment produces nothing exactly when it is blank. |
| AddressList.EntryEmits | pigeon-remoting/src/main/java/com/dianping/pigeon/remoting/invoker/ClientManager.java:142-149 | A segment emits exactly when all of these hold: it is non-blank, its weight lookup returns, it holds a ':', and the field after the first ':' parses as an int. The event is then: host = the text before the first ':'; port = that parsed field; weight = the weight looked up with the untrimmed segment. |
| AddressList.EntryHostMissing | pigeon-remoting/src/main/java/com/dianping/pigeon/remoting/invoker/ClientManager.java:143-144 | The segment fails at `parts[0]`, outside the `try`, exactly when it is made only of ':' characters (its split is empty). |
| AddressList.RunAppend | pigeon-remoting/src/main/java/com/dianping/pigeon/remoting/invoker/ClientManager.java:141-154 | Running the loop over `a + b` first runs it over `a`. If that fails, `b` is never looked at. Otherwise `b`'s events follow `a`'s. |
| AddressList.PlanAppend | pigeon-remoting/src/main/java/com/dianping/pigeon/remoting/invoker/ClientManager.java:141-154 | The same property, stated for segments. |
| AddressList.RunSucceeds | pigeon-remoting/src/main/java/com/dianping/pigeon/remoting/invoker/ClientManager.java:141-154 | The loop ends normally exactly when no outcome fails. It then emits the events of the emitting outcomes, in order. |
| AddressList.EmittedNonBlank | pigeon-remoting/src/main/java/com/dianping/pigeon/remoting/invoker/ClientManager.java:141-153 | When no segment fails, the k-th emitted event is the one the k-th non-blank segment emits. |
| AddressList.PlanSucceeds | pigeon-remoting/src/main/java/com/dianping/pigeon/remoting/invoker/ClientManager.java:141-154 | The loop raises nothing exactly when no segment fails. It then emits exactly one event per non-blank segment, in list order. |
| AddressList.PlanStopsAtFirstFailure | pigeon-remoting/src/main/java/com/dianping/pigeon/remoting/invoker/ClientManager.java:146-152 | The loop fails with the first failing segment's exception. The events emitted are those of the segments before it, and no later segment is processed. |
| AddressList.RunEventsEmitted | pigeon-remoting/src/main/java/com/dianping/pigeon/remoting/invoker/ClientManager.java:149 | Every event the loop emits is emitted by one of the segments. |
| AddressList.FallbackToSingleVip | pigeon-remoting/src/main/java/com/dianping/pigeon/remoting/invoker/ClientManager.java:118-149 | Discovery throws and the vip is a single well-formed `host:port` whose weight lookup returns. Then exactly one provider is added, for that entry, and no exception is raised. |
| AddressList.FallbackRegistersVip | pigeon-remoting/src/main/java/com/dianping/pigeon/remoting/invoker/ClientManager.java:118-149 | Concretely, for vip "10.0.0.1:8080": one event, host "10.0.0.1", port 8080. |
| JavaText.TrimIsSlice | pigeon-remoting/src/main/java/com/dianping/pigeon/remoting/invoker/ClientManager.java:139 | `trim` keeps one contiguous slice. Everything cut off on either side is <= ' '. The slice neither starts nor ends with such a character. |
| JavaText.Trim | pigeon-remoting/src/main/java/com/dianping/pigeon/remoting/invoker/ClientManager.java:139 | `String.trim` is never longer than its input, and what it keeps neither starts nor ends with a character <= ' '. |
| JavaText.TrimIdempotent | pigeon-remoting/src/main/java/com/dianping/pigeon/remoting/invoker/ClientManager.java:139 | Trimming twice is trimming once. |
| JavaText.Fields | pigeon-remoting/src/main/java/com/dianping/pigeon/remoting/invoker/ClientManager.java:140-143 | The fields between separators: at least one field, and none holds the separator. |
| JavaText.JoinFields | pigeon-remoting/src/main/java/com/dianping/pigeon/remoting/invoker/ClientManager.java:140-143 | Joining the fields with the separator gives back the text. |
| JavaText.FieldsHead | pigeon-remoting/src/main/java/com/dianping/pigeon/remoting/invoker/ClientManager.java:143-144 | The first field is the text before the first separator. The remaining fields are the fields of the text after it. |
| JavaText.DropTrailingEmpty | pigeon-remoting/src/main/java/com/dianping/pigeon/remoting/invoker/ClientManager.java:140-143 | `split` keeps a prefix of the fields. Everything dropped is empty, and the last field kept is not. |
| JavaText.Split | pigeon-remoting/src/main/java/com/dianping/pigeon/remoting/invoker/ClientManager.java:140-143 | `split` pieces never hold the separator. A text without the separator comes back whole. An empty result happens only when the separator occurs. |
| JavaText.SplitKeepsFields | pigeon-remoting/src/main/java/com/dianping/pigeon/remoting/invoker/ClientManager.java:140-143 | The pieces `split` returns are the leading fields of the text, none holds the separator, and every non-empty field is among them. |
| JavaText.SplitDropsTrailingEmpty | pigeon-remoting/src/main/java/com/dianping/pigeon/remoting/invoker/ClientManager.java:143-144 | `"h:"` splits into `["h"]`, `":"` into `[]` and `""` into `[""]`. |
| JavaText.ParseInt | pigeon-remoting/src/main/java/com/dianping/pigeon/remoting/invoker/ClientManager.java:148 | A parsed port is within the 32-bit int range. |
| JavaText.ParseIntAccepts | pigeon-remoting/src/main/java/com/dianping/pigeon/remoting/invoker/ClientManager.java:148 | When `parseInt` succeeds, the text is non-empty, at most a leading `+` or `-` followed by ASCII digits, and holds no whitespace. `ParseIntOfDigits` gives the converse. |
| JavaText.ParseIntOfDigits | pigeon-remoting/src/main/java/com/dianping/pigeon/remoting/invoker/ClientManager.java:148 | The converse: an optional `+` or `-` followed by one or more ASCII digits whose value is in the int range parses to that value (so "+80" gives 80). |
| JavaText.NatToDigitsRoundTrip | pigeon-remoting/src/main/java/com/dianping/pigeon/remoting/invoker/ClientManager.java:185 | The decimal digits of a natural number read back as that number. |
| JavaText.IntToString | pigeon-remoting/src/main/java/com/dianping/pigeon/remoting/invoker/ClientManager.java:185 | `Integer.toString` is non-empty. It starts with '-' exactly for a negative number, and it is digits after the first character. |
| JavaText.ParseIntToString | pigeon-remoting/src/main/java/com/dianping/pigeon/remoting/invoker/ClientManager.java:148 | Every int, printed as in `host + ":" + port`, parses back to itself. |
| JavaText.IntToStringShape | pigeon-remoting/src/main/java/com/dianping/pigeon/remoting/invoker/ClientManager.java:185 | A printed int is non-empty and consists only of a sign and digits, so it holds no ':'. |
| Registry.ConnectsOfEach | pigeon-remoting/src/main/java/com/dianping/pigeon/remoting/invoker/ClientManager.java:185 | The cluster store receives one `ConnectInfo` per event, the k-th for the k-th event. |
| Registry.RecordOne | pigeon-remoting/src/main/java/com/dianping/pigeon/remoting/invoker/ClientManager.java:80-81 | One more event extends both stores by that event's server alone. |
| Registry.AddServer | pigeon-remoting/src/main/java/com/dianping/pigeon/remoting/invoker/ClientManager.java:81 | `addServiceServer`: the service becomes known, and its set gains the server and keeps its old servers. No other service appears. |
| Registry.RemoveServer | pigeon-remoting/src/main/java/com/dianping/pigeon/remoting/invoker/ClientManager.java:191 | `removeServiceServer`: no service appears or disappears. The server is absent afterwards, and no server is added. |
| Registry.RegisterAll | pigeon-remoting/src/main/java/com/dianping/pigeon/remoting/invoker/ClientManager.java:81-149 | Registering a sequence of events forgets no service, and afterwards every event's server is registered under its service. |
| Registry.AddServerEffect | pigeon-remoting/src/main/java/com/dianping/pigeon/remoting/invoker/ClientManager.java:81 | Adding a server puts it in its service's set and leaves every other service unchanged. |
| Registry.RemoveServerEffect | pigeon-remoting/src/main/java/com/dianping/pigeon/remoting/invoker/ClientManager.java:190-191 | Removing takes out exactly the matching (host:port, weight) server. Its other servers, including the same host:port with another weight, stay. Other services are untouched. |
| Registry.RemoveUndoesAdd | pigeon-remoting/src/main/java/com/dianping/pigeon/remoting/invoker/ClientManager.java:190-191 | A provider added and then removed, when it was not known before, leaves every service's servers as they were. |
| Registry.ServersForMembers | pigeon-remoting/src/main/java/com/dianping/pigeon/remoting/invoker/ClientManager.java:149 | A server is named for a service exactly when one of that service's events names it. |
| Registry.RegisterAllEffect | pigeon-remoting/src/main/java/com/dianping/pigeon/remoting/invoker/ClientManager.java:149 | After registering a list of events, a service has its old servers plus those its events name, and no others. |
| Registry.ConnectStringParses | pigeon-remoting/src/main/java/com/dianping/pigeon/remoting/invoker/ClientManager.java:143-149 | A connect string `host + ":" + port` with a ':'-free host parses back, as an address segment, into the same host and port. |
| Registry.EmittedConnectParses | pigeon-remoting/src/main/java/com/dianping/pigeon/remoting/invoker/ClientManager.java:143-149 | The connect string registered for a parsed segment parses back into the same event. |
| ClientFilter.WithoutMembers | pigeon-remoting/src/main/java/com/dianping/pigeon/remoting/invoker/ClientManager.java:88 | A client survives `removeAll` exactly when it was in the list and is not excluded. |
| ClientFilter.Without | pigeon-remoting/src/main/java/com/dianping/pigeon/remoting/invoker/ClientManager.java:88 | Filtering never lengthens the list. |
| ClientFilter.RemoveAll | pigeon-remoting/src/main/java/com/dianping/pigeon/remoting/invoker/ClientManager.java:87-88 | The filtered list is no longer than the client list, holds only clients from it, and, when an exclusion list is given, none of the excluded ones. |
| ClientFilter.WithoutCounts | pigeon-remoting/src/main/java/com/dianping/pigeon/remoting/invoker/ClientManager.java:88 | Excluded clients disappear entirely. Every other client keeps its number of occurrences. |
| ClientFilter.WithoutAppend | pigeon-remoting/src/main/java/com/dianping/pigeon/remoting/invoker/ClientManager.java:88 | Filtering works piece by piece, so relative order is preserved. |
| ClientFilter.WithoutNothing | pigeon-remoting/src/main/java/com/dianping/pigeon/remoting/invoker/ClientManager.java:88 | An empty exclusion list removes nothing, and filtering twice is filtering once. |
| ClientFilter.ClientsToRoute | pigeon-remoting/src/main/java/com/dianping/pigeon/remoting/invoker/ClientManager.java:85-89 | The in-place compaction of the copy yields the client list with every excluded client removed, in order. A null exclusion list removes nothing. The service's own array is only read. |
| ClientFilter.GetClient | pigeon-remoting/src/main/java/com/dianping/pigeon/remoting/invoker/ClientManager.java:84-91 | The router is handed exactly the filtered copy. |
| ClientManagerModel.ClientManager.constructor | pigeon-remoting/src/main/java/com/dianping/pigeon/remoting/invoker/ClientManager.java:67-77 | A new manager has published nothing, and both of its stores are empty. |
| ClientManagerModel.ClientManager.RegisterClient | pigeon-remoting/src/main/java/com/dianping/pigeon/remoting/invoker/ClientManager.java:79-82 | One `ConnectInfo` is appended to the cluster store, and the server is added to its service in the registry. Nothing else changes. |
| ClientManagerModel.ClientManager.ProviderAdded | pigeon-remoting/src/main/java/com/dianping/pigeon/remoting/invoker/ClientManager.java:181-186 | The event registers `host + ":" + port` with its weight in both stores. |
| ClientManagerModel.ClientManager.ProviderRemoved | pigeon-remoting/src/main/java/com/dianping/pigeon/remoting/invoker/ClientManager.java:189-192 | The matching (host, port, weight) server is removed from the registry only. The cluster store is unchanged. |
| ClientManagerModel.ClientManager.HostWeightChanged | pigeon-remoting/src/main/java/com/dianping/pigeon/remoting/invoker/ClientManager.java:195-196 | No state changes. |
| ClientManagerModel.ClientManager.PublishProviderAdded | pigeon-remoting/src/main/java/com/dianping/pigeon/remoting/invoker/ClientManager.java:181-186 | The event is published and reaches the manager's own listener, which updates both stores. |
| ClientManagerModel.ClientManager.RegisterSegment | pigeon-remoting/src/main/java/com/dianping/pigeon/remoting/invoker/ClientManager.java:142-152 | One turn of the loop. A skipped or failing segment changes nothing. An emitting segment publishes its event and registers its server. |
| ClientManagerModel.ClientManager.RegisterAddressList | pigeon-remoting/src/main/java/com/dianping/pigeon/remoting/invoker/ClientManager.java:141-154 | The imperative loop ends with the exception `PlanEntries` predicts. The stores hold their old contents followed by exactly the predicted events. |
| ClientManagerModel.ClientManager.FindAndRegisterClientFor | pigeon-remoting/src/main/java/com/dianping/pigeon/remoting/invoker/ClientManager.java:107-155 | The call ends with `Bootstrap`'s exception. The published events, the cluster store and the registry are the old ones extended by exactly `Bootstrap`'s events, including the events published before a failing segment. |
| ClientManagerModel.BootstrapRegistersEmitted | pigeon-remoting/src/main/java/com/dianping/pigeon/remoting/invoker/ClientManager.java:107-155 | After bootstrapping a fresh registry, the service's servers are exactly those of the emitted events. |
| ClientManagerModel.BootstrapEventsForService | pigeon-remoting/src/main/java/com/dianping/pigeon/remoting/invoker/ClientManager.java:149 | Every event a bootstrap emits is for the service being bootstrapped. |
| ClientManagerModel.PlanEventsForService | pigeon-remoting/src/main/java/com/dianping/pigeon/remoting/invoker/ClientManager.java:141-153 | Every event the loop emits is for the service being bootstrapped. |

The model follows the code where the intended design reads differently:
- The vip replaces the discovery answer only when that answer is `null`. An empty or whitespace answer is not replaced, and the call fails (`BlankAnswerFails`).
- Events published for earlier segments are not rolled back when a later segment fails (`FindAndRegisterClientFor`, `PlanStopsAtFirstFailure`).
- A segment made only of ':' fails at `parts[0]`, outside the `try`. It therefore raises the bare index exception, not the wrapped "error while getting service weight" (`HostMissing`).
- The weight is looked up before the port is read, so a failing weight lookup wins over a missing or bad port.

## Left out

- The constructor's wiring (lines 67-77) is left out: creating the heartbeat and reconnect workers, starting their thread pools, and subscribing the listeners. It is background concurrency. The constructor only starts the model with empty stores.
- The `synchronized` locking of `registerClient` and `findAndRegisterClientFor` is left out. Calls are modelled as sequential.
- The routing algorithm of `routerManager.route` is not visible. It is a function parameter of `GetClient`.
- `clusterListener.getClientList(url)`: the client list is a parameter (an array the model only reads).
- The `group` argument of `findAndRegisterClientFor` only selects the discovery answer. That answer is an input, so the group does not appear.
- The inner workings of `RegistryManager` and `ClusterListenerManager` are left out. The cluster store is a log of the `ConnectInfo`s it receives. The registry is a map from service name to a set of (connect string, weight) servers.
- `ProviderRemoved` assumes a `HostInfo` matches a server by host, port and weight together. `HostInfo`'s equality is not part of this model.
- `RegistryEventListener` delivers a published event to every subscribed listener. Only this manager's own listener is modelled; other listeners, and exceptions they might throw, are not part of this model.
- `destroy`, `getServiceHostInfos`, `clear` and the getters are disposal and delegation to external singletons, and are left out.
- Logging is left out.
- The load-generating benchmark client is left out. It is threads, timing and printing.
- `RegistryManager.getServiceWeight` is a fixed function of the segment text. A segment that appears twice in one address list therefore gets the same weight answer both times, whereas the two real calls at line 147 could answer differently (or one could throw).
- JavaText.ParseInt: accepts ASCII digits only. `Integer.parseInt` also accepts the other Unicode decimal digits, which an address string does not carry.
- JavaText.IsWhitespace: follows Java 8's `Character.isWhitespace` table. Characters outside the Basic Multilingual Plane are treated as single characters, not as UTF-16 surrogate pairs.
