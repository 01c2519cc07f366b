# MQTT parent/child measures for Rainmeter, modelled in Dafny

The plugin has two kinds of measures:

- A **parent measure** owns one MQTT client connection. It keeps a topic cache holding the last payload received per topic. It also keeps a subscription table mapping each topic to the QoS it was first requested with.
- A **child measure** names a parent of the same skin. At every reload it looks that parent up in a process-wide registry of live parents, adds its own topic to the parent's subscriptions, and from then on delegates to it: its string value is the parent's cached payload for the child's topic, and its bangs and publishes go out through the parent.

Measures are created, reloaded, polled and torn down by the Rainmeter host through the plugin's exported entry points.

The model's modules:

- `MqttTypes` (`mqtt_types.dfy`) holds the value types:
  - the .NET `byte` and `ushort` widths;
  - the option reader;
  - the calls made into the transport;
  - the pure helpers: the port check, the `(byte)` cast of the QoS option, and the argument-count dispatch of the Publish section variable.
- `Tables` (`tables.dfy`) holds the two hash tables as maps, plus the loop that copies the subscription table into the parallel topic and QoS arrays a subscribe call sends (`CopyTable`). It also proves that those arrays give back exactly the table they were copied from (`CarriedTable`).
- `Parents` (`parents.dfy`) holds the registry as a class with a `parents` sequence, and the parent measure as a class whose fields are updated in place. The transport is abstract:
  - `connected` stands for the client's connection flag;
  - a ghost `wire` log records every connect, subscribe, publish and disconnect call, in order.

  The invariant `Valid()` says that every subscribe call ever sent still agrees with the current table. No entry is ever dropped or changed.
- `Children` (`children.dfy`) holds the child measure. Its reload is a loop over the registry (`SubscribeMatching`). The loop subscribes the child's topic on every parent with the same skin and name, and keeps the last one.
- `Plugin` (`plugin.dfy`) holds the entry points. A measure is `Parent(p)` or `Child(c)`: the choice is made at `Initialize` by whether `ParentName` is empty, and every later entry point dispatches on it.
- `Scenarios` (`scenarios.dfy`) holds client programs that drive the measures through host calls and network events. Each one states what a caller can conclude from the contracts.

The environment appears as follows:

- Network events are methods: `Receive` for a message arriving and `ConnectionClosed` for the connection dropping.
- The outcome of each connection attempt is a `bool` parameter (`connectOk`, `reconnectOk`).
- The GUID used as the default client id is a parameter (`generatedId`).
- Host options are two maps, one for string options and one for integer options.

Three behaviours of the code that the model keeps as written:

- A child's reload walks the whole registry, subscribes its topic on every parent with the same skin and name, and keeps the last of them (`MqttPlugin/MqttPlugin.cs:383-391`). `LastMatch` and `SubscribeMatching` state this.
- Nothing discards a live connection on reconfiguration. The only code that would (`MqttPlugin/MqttPlugin.cs:147-153`) cannot run, and a parent's reload (`MqttPlugin/MqttPlugin.cs:279-285`) only swaps the host handle, so `Plugin.Reload` leaves a parent unchanged.
- Reconnecting (`MqttPlugin/MqttPlugin.cs:252-265`) does not send the subscription table again: `Parents.ParentMeasure.Update` and `Scenarios.NoReplayAfterReconnect` state this.

## Model

| member | source | states |
|---|---|---|
| MqttTypes.EffectivePort | MqttPlugin/MqttPlugin.cs:161-171 | the configured port is kept exactly when it lies in 1..65535, and 1883 replaces it otherwise; the result is always a legal port |
| MqttTypes.EffectivePortIdempotent | MqttPlugin/MqttPlugin.cs:166-171 | feeding the effective port back in as the configured port yields the same port |
| MqttTypes.ByteOf | MqttPlugin/MqttPlugin.cs:389 | the `(byte)` cast keeps a QoS option in 0..255 unchanged, and otherwise yields the value congruent to it modulo 256 |
| MqttTypes.PublishArgs | MqttPlugin/MqttPlugin.cs:528-536 | exactly two arguments are published as (first, second); any other count publishes ("atopic", "avalue") |
| Tables.Store | MqttPlugin/MqttPlugin.cs:234-238 | after a message on `t`, the cache maps `t` to the payload, its key set grows by `t` alone, and every other entry is unchanged |
| Tables.LastWriteWins | MqttPlugin/MqttPlugin.cs:234-238 | two messages on one topic leave the same cache as the second message alone |
| Tables.AddSubscription | MqttPlugin/MqttPlugin.cs:288-290 | the topic ends up present and the key set grows by it alone; the old table is kept as a sub-table, so nothing shrinks or changes; a new topic gets the requested QoS |
| Tables.FirstQosWins | MqttPlugin/MqttPlugin.cs:288-290 | subscribing a topic again with another QoS changes nothing, and the first QoS stays |
| Tables.CopyTable | MqttPlugin/MqttPlugin.cs:292-295 | the topic and QoS arrays have length `Qos.Count`, list every key exactly once, and pair each topic with its own QoS |
| Tables.CarriedTable | MqttPlugin/MqttPlugin.cs:292-299 | the arrays a subscribe call carries, read back pair by pair, give exactly the table they were copied from |
| Parents.RemoveFirst | MqttPlugin/MqttPlugin.cs:276 | `List.Remove` drops one occurrence of the element if present and leaves the list as it was otherwise; as a multiset it removes exactly that element |
| Parents.RemoveFirstSplices | MqttPlugin/MqttPlugin.cs:276 | only the first occurrence is removed: the entries before and after it stay, in their order |
| Parents.RemoveFirstDistinct | MqttPlugin/MqttPlugin.cs:276 | in a registry without duplicates, removing a parent removes it entirely, keeps every other parent, and keeps the registry duplicate-free |
| Parents.RemoveAppended | MqttPlugin/MqttPlugin.cs:276 | removing the parent that construction just appended restores the registry exactly |
| Parents.LastMatch | MqttPlugin/MqttPlugin.cs:383-391 | the result is null exactly when no registry entry has the skin and name; otherwise it is an entry that matches and no later entry matches |
| Parents.Registry.constructor | MqttPlugin/MqttPlugin.cs:124 | the process-wide list of parents starts empty and valid |
| Parents.ParentMeasure.constructor | MqttPlugin/MqttPlugin.cs:155-208 | appends the new parent to the registry; reads Topic, Server, ClientId, Username and Password with their defaults; sets the effective port and the warning bit for an illegal port; starts with empty tables; makes one connect call, whose outcome is the connected flag |
| Parents.ParentMeasure.Receive | MqttPlugin/MqttPlugin.cs:224-238 | an inbound message stores its payload under its topic (last write wins) and changes nothing else |
| Parents.ParentMeasure.ConnectionClosed | MqttPlugin/MqttPlugin.cs:190-195 | a closed connection only clears the flag; nothing reconnects and no call is made |
| Parents.ParentMeasure.Reconnect | MqttPlugin/MqttPlugin.cs:252-265 | one connect call is made, its outcome becomes the flag, and the tables are untouched |
| Parents.ParentMeasure.Subscribe | MqttPlugin/MqttPlugin.cs:287-303 | first QoS wins; when connected, exactly one subscribe call carrying the whole new table is sent; when disconnected, no call is sent but the entry is kept; the invariant that every call sent agrees with the table is preserved |
| Parents.ParentMeasure.Publish | MqttPlugin/MqttPlugin.cs:305-314 | exactly that publication is sent iff connected; otherwise nothing happens; no table or flag changes |
| Parents.ParentMeasure.ExecuteBang | MqttPlugin/MqttPlugin.cs:316-318 | a bang publishes its argument to the default topic at QoS 0 without retain, iff connected |
| Parents.ParentMeasure.Update | MqttPlugin/MqttPlugin.cs:320-334 | returns 0; a connected parent makes no call; a disconnected one makes exactly one connect call, whose outcome is the new flag, and does not re-send its subscriptions |
| Parents.ParentMeasure.GetString | MqttPlugin/MqttPlugin.cs:336-353 | a value is returned iff connected and the topic is cached, and it is the cached payload; null otherwise |
| Parents.ParentMeasure.GetValue | MqttPlugin/MqttPlugin.cs:355-359 | the parent's numeric value is always 0 |
| Parents.ParentMeasure.Dispose | MqttPlugin/MqttPlugin.cs:267-277 | a connected parent sends one disconnect call; the parent leaves the registry and every other parent stays; the registry stays duplicate-free |
| Children.SubscribeMatching | MqttPlugin/MqttPlugin.cs:383-391 | each parent whose skin and name match gets `Subscribe(topic, qos)`, every other parent is untouched, and the last match is returned |
| Children.ChildMeasure.constructor | MqttPlugin/MqttPlugin.cs:364-371 | a new child has no resolved parent |
| Children.ChildMeasure.Reload | MqttPlugin/MqttPlugin.cs:373-397 | reads Topic and Qos; the resolved parent is the last registry entry with equal skin and name, or null; every matching parent got the child's subscription, so the child's topic is a key of the resolved parent's table; the rest of the registry is untouched |
| Children.ChildMeasure.ExecuteBang | MqttPlugin/MqttPlugin.cs:399-403 | with a parent, publishes its argument to the child's topic at QoS 0 without retain, iff that parent is connected; with none, does nothing |
| Children.ChildMeasure.Update | MqttPlugin/MqttPlugin.cs:405-413 | the child's numeric value is 0 with or without a parent |
| Children.ChildMeasure.GetString | MqttPlugin/MqttPlugin.cs:414-420 | "" without a parent; otherwise the parent's cached payload for the child's topic, or null when the parent is disconnected or lacks it |
| Children.ChildMeasure.Publish | MqttPlugin/MqttPlugin.cs:421-425 | the publication is forwarded unchanged to the parent, or dropped without one |
| Plugin.Initialize | MqttPlugin/MqttPlugin.cs:435-452 | creates a parent iff ParentName is empty, and it is then registered, configured (topic, server, effective port and its warning bit, client id, username, password) and connected as the parent constructor states; otherwise creates an unresolved child and leaves the registry alone |
| Plugin.Finalize | MqttPlugin/MqttPlugin.cs:455-465 | a parent is disposed: disconnected if connected, and removed from the registry; a child does nothing |
| Plugin.Reload | MqttPlugin/MqttPlugin.cs:468-477 | a parent's state is kept; a child resolves its parent and subscribes again as its reload states |
| Plugin.Update | MqttPlugin/MqttPlugin.cs:480-486 | every measure yields 0; a disconnected parent reconnects first |
| Plugin.GetString | MqttPlugin/MqttPlugin.cs:489-504 | a parent always reads ""; a child reads what its parent has cached for its topic, or "" without a parent |
| Plugin.ExecuteBang | MqttPlugin/MqttPlugin.cs:507-513 | the bang goes to the measure's own topic through the parent that serves it, at QoS 0 without retain, iff that parent is connected |
| Plugin.Publish | MqttPlugin/MqttPlugin.cs:517-539 | publishes the two arguments, or the placeholder pair for any other count, at QoS 0 without retain, through the serving parent iff it is connected |
| Scenarios.BindChild | MqttPlugin/MqttPlugin.cs:373-397 | reloading a child of the only parent binds it to that parent and performs exactly one subscribe step with the child's topic and QoS |
| Scenarios.PortFallback | MqttPlugin/MqttPlugin.cs:161-171 | port 0 yields 1883 with a warning, and the connection is still attempted |
| Scenarios.ChildReadsCache | MqttPlugin/MqttPlugin.cs:414-420 | a child of a connected parent reads the payload received on its topic; a child whose topic never arrived reads null |
| Scenarios.TwoChildrenSubscribe | MqttPlugin/MqttPlugin.cs:287-303 | two children with distinct topics leave the table {ta: 1, tb: 2}; the first subscribe call carries {ta: 1} and the second carries the whole table |
| Scenarios.UnresolvedChild | MqttPlugin/MqttPlugin.cs:399-420 | a child whose parent name matches nothing reads "" and its bang touches no parent |
| Scenarios.WrongArgumentCount | MqttPlugin/MqttPlugin.cs:528-536 | three arguments publish ("atopic", "avalue") at QoS 0 without retain |
| Scenarios.PublishWhileDisconnected | MqttPlugin/MqttPlugin.cs:305-314 | after the connection closes, a publish sends nothing and the cache keeps its value |
| Scenarios.NoReplayAfterReconnect | MqttPlugin/MqttPlugin.cs:320-334 | after a lost connection the tick reconnects, but the last call on the wire is the connect, not a new subscribe |
| Scenarios.CreateThenDispose | MqttPlugin/MqttPlugin.cs:155 | creating a parent and disposing of it leaves the registry exactly as it was |

## Left out

- **The M2Mqtt transport** (the client's construction, `Connect`, `Subscribe`, `Publish` and `Disconnect`). It is abstract: a connected flag and a ghost log of calls. The outcome of a connection attempt is a parameter, and a call that throws is not modelled.
- **Threading.** Inbound messages and closed connections arrive on the network thread. They are modelled as sequential events (`Receive`, `ConnectionClosed`), so interleavings inside a call are not covered.
- **Host plumbing**:
  - the host API object and `GCHandle`;
  - the unmanaged string buffers (`StringBuffer`, `measure.buffer`) and their freeing;
  - the "Pub" / "Arg count must be 2" buffer texts;
  - the empty string that Publish returns.

  These are foreign memory, not engine logic.
- **The static host handle `Rainmeter`.** `Plugin.ExecuteBang` logs through it before dispatching (line 509), and any measure's `Finalize` sets it to null (line 464). So in the source, a bang that arrives after some other measure has been torn down throws before it dispatches. The model has no shared host handle, and its `Plugin.ExecuteBang` always dispatches.
- **The host's option reader** is reduced to the two maps of `Options`. The skin handle is an integer compared for equality.
- **Log messages** are side output, except for the `portWarning` ghost bit set for an illegal port.
- **Payload encodings and the GUID:** the `Encoding.Default` and UTF-8 conversions and `Guid.NewGuid()`. Payloads are strings, and the client id default is the `generatedId` parameter.
- **Dead and unsafe constructor code.**
  - The opening block that disconnects an existing client cannot run.
  - The null-client path dereferences null at the event wiring.
  - The model's client is therefore never null, so the `Client != null` guards in Publish, Update, GetString and Dispose always hold.
- **Dispose's failing disconnect:** Dispose clears the connected flag after its disconnect call. An exception thrown by the disconnect, which the source only logs, is not modelled.
- **The message-ID callbacks** for published, subscribed and unsubscribed only log.
- **ParentMeasure.Reload** only replaces the host handle and logs, so the model has no parent reload.
- **Children.ChildMeasure.constructor:** the child's topic is the empty string until the first reload; in the source it is null until then. Nothing reads it before a reload.
