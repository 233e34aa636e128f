# Peer and topic bookkeeping of `discovery.js`

This project models the core of the `Discovery` class in `discovery.js`. That class
reconciles peers found by two transports: a local-network service-announcement transport
(mDNS plus inbound TCP) and a global rendezvous transport (the DHT swarm). The model
covers:

- the two registries: `#peers`, keyed by hex identity, and `#topics`, keyed by topic string;
- the decisions its transport callbacks make for each connection attempt: reject a
  self-connection, register a new `Peer`, or destroy a duplicate;
- what the local-discovery `service` and `serviceDown` handlers do with an announcement;
- the two status lanes (`dht`, `mdns`) of each `Topic`, driven by `join`, `leave` and
  `_updateStatus`.

Transports are abstracted away. Each callback is a method that receives the already
verified remote identity, the topic string, the address and a connection handle as plain
values. What the core emits to the application (`connection`, `connectionClosed`,
`status`) is an append-only event log. An append-only action log records three of the
requests it makes to the transports: destroy a connection, dial, destroy a topic. The
other requests (joining, flushing and leaving the swarm, announcing and looking up on the
local network) are not logged.

Modules, in dependency order:

- `Common` (`common.dfy`): optional members, the `TypeError` outcome of an operation
  that throws, and connection handles.
- `Topics` (`topic.dfy`): the Topic as a value (`TopicValue`, `NewTopic`,
  `ApplyStatus`) and as a class whose status fields `UpdateStatus` changes in place.
- `Peers` (`peer.dfy`): the Peer as a value (`NewPeer`, `UpdatePeer`, with JavaScript
  truthiness written out) and as a class whose `topics` set is changed in place.
  `AddTopics` keeps the source's loop.
- `Registry` (`registry.dfy`): the whole object's state as a value, with one function per
  handler. A `Step` names one handler invocation and `Run` applies a sequence of them, so
  any interleaving of transport callbacks can be reasoned about.
- `Discovery` (`discovery.dfy`): the `Discovery` class. It owns maps of `Peer` and
  `Topic` objects and the two logs. Each handler is a method proved to move the abstract
  state (`Abs()`) exactly as the matching `Registry` function says. `Valid()` records
  that no object is registered under two keys.
- `Traces` (`traces.dfy`): properties of every interleaving:
  - the registry stays keyed by identity and by topic string;
  - the logs only grow;
  - the local identity is never registered and never announced;
  - a registered peer keeps its connection, and no other connection is announced for it,
    until its own `close` removes it;
  - under two assumptions about the transports, one registration of an identity causes
    at most one `connection` event.

  The module also proves four concrete scenarios.
- `AsWritten` (`findings.dfy`): the handlers the source gets wrong, as written, each with
  an input on which they part from the corrected handlers in `Registry` (see Findings).

Some behaviour of the code is easy to expect otherwise; the model follows the code:

- `join` replaces whatever Topic is registered under the string with a new one
  (`discovery.js:187-193`); it does not reuse the object. With the passive Topic filed
  under the announced string (see Findings), the replacement has the value a reused and
  upgraded passive Topic would have, since a passive Topic holds no transport handles.
  `Registry.AnnouncedThenJoinedOnce` states that an announced-then-joined topic is
  registered once.
- `leave` keeps the Topic registered and emits its snapshots again on a second call.
  `Registry.LeaveTwiceSameLanes` states the idempotence that does hold: the lanes after a
  second `leave` are those after the first.
- A rendezvous duplicate of a registered identity is destroyed, and the topics its
  handshake carried (`info.topics`) are dropped: only the new-peer branch reads them
  (`discovery.js:131-142`). Topics the duplicate announces later through its `topic`
  listener still reach the registered peer (`Traces.ScenarioDuplicateRendezvous`).
- `serviceDown` destroys a peer whose topic set is exactly the withdrawn topic, whether
  or not its connection is live (`discovery.js:300`).
- No status order is enforced. `updateStatus` takes any value on a lane that holds a
  handle (`discovery.js:576-584`). What is proved is that a lane without a handle stays
  `deactivated`.
- The `joined` update on our own announcement (`discovery.js:229-233`) changes nothing on
  a passive Topic, which has no local handle; the snapshot is still emitted.
- The close of a rendezvous or dialled connection emits no `connectionClosed`; only the
  inbound `close` handler emits it (`discovery.js:110-122`).

## Model

| member | source | states |
|---|---|---|
| Topics.NewTopic | discovery.js:546-567 | a lane with a transport handle starts `closed` and a lane without one starts `deactivated`; the name and the handles are those given |
| Topics.ApplyStatus | discovery.js:576-589 | a lane takes the new value exactly when it holds a handle and the value is given; every other lane, the name and the handles stay; a handle-less lane stays `deactivated` |
| Topics.ApplyStatusIdempotent | discovery.js:576-584 | applying the same status update twice is applying it once |
| Topics.DeactivatedLaneStays | discovery.js:563-566 | after any sequence of updates, a lane constructed without a handle is still `deactivated` and the handles are unchanged |
| Topics.Topic.constructor | discovery.js:546-567 | the new object's state is `NewTopic` of its arguments, so its lanes are consistent with its handles |
| Topics.Topic.Status | discovery.js:569-574 | on a consistent Topic, a lane without a transport handle reports `deactivated`; `Discovery.UpdateTopicStatus` builds its snapshot from it |
| Topics.Topic.UpdateStatus | discovery.js:576-589 | the object's new state is `ApplyStatus` of its old state, and lane consistency is preserved |
| Peers.NewPeer | discovery.js:453-474 | a new peer's topic set holds exactly the listed topics; connection, address, discovery type and identity are those given; a missing connection is excluded because the constructor subscribes to it |
| Peers.UpdatePeer | discovery.js:476-509 | topics are united in; connection, host, port, discovery type and identity are overwritten only by a truthy option (non-empty string, non-zero port), else kept |
| Peers.UpdateIdempotent | discovery.js:476-509 | applying the same options twice is applying them once |
| Peers.UpdateWithFalsyOptionsIsIdentity | discovery.js:486-508 | options that are all missing or falsy change nothing, so `update` never clears a field |
| Peers.AddressUpdateKeepsConnection | discovery.js:241-244 | the host/port update of the `service` handler keeps connection, identity, discovery type and topics, and sets a given host and port |
| Peers.Peer.constructor | discovery.js:453-474 | the new object's state is `NewPeer` of the options |
| Peers.Peer.Update | discovery.js:476-509 | the object's new state is `UpdatePeer` of its old state |
| Peers.Peer.AddTopic | discovery.js:511-513 | the topic set becomes the old set plus the topic; nothing else changes |
| Peers.Peer.AddTopics | discovery.js:515-519 | after the loop, the topic set is the old set united with the listed topics; nothing else changes |
| Peers.Peer.RemoveTopic | discovery.js:521-523 | the topic set loses exactly that topic; nothing else changes |
| Registry.UpdateTopicStatus | discovery.js:440-447 | the topic gets `ApplyStatus` of the update, and exactly one `status` event with the post-update lanes is appended; peers and actions unchanged; registry invariant preserved |
| Registry.OnInboundConnect | discovery.js:74-108 | own identity: nothing changes; a registered identity: the new connection is destroyed and no event fires; otherwise exactly one `mdns` peer with no topics is added and one `connection` event fires; existing peers unchanged |
| Registry.OnInboundClose | discovery.js:110-122 | when the closing connection is the registered peer's: one `connectionClosed` with that peer, and its connection is destroyed; otherwise nothing; the registries are unchanged |
| Registry.OnPeerClose | discovery.js:118-120 | the identity leaves the registry and every other entry is unchanged |
| Registry.CloseActive | discovery.js:151-156 | the close of a registered peer's active connection destroys it; the close of any other connection changes nothing |
| Registry.OnDhtConnection | discovery.js:127-165 | a registered identity: the new connection is destroyed, with no event and no registry change; otherwise one `dht` peer seeded with the announced topics and one `connection` event |
| Registry.OnDhtTopic | discovery.js:147-149 | an announced topic joins the registered peer's set, whether that peer is new or the original kept over a duplicate; nothing else changes |
| Registry.RegisterPassive | discovery.js:222-227 | a known topic is kept as is; an unknown one is registered as a handle-less Topic under the announced string (the corrected filing of the Findings row for :225) |
| Registry.Announced | discovery.js:240-245 | a known peer's topic set gains the topic; host and port change only when given truthy; connection, identity and discovery type are kept |
| Registry.OnService | discovery.js:219-287 | own identity: only the topic's `mdns` lane is updated to `joined`, with one `status` event and no peer; a known peer gets the address and topic with no dial; an unknown identity gets one dial and one peer whose topic set is exactly that topic; existing connections are kept; the invariant is preserved |
| Registry.OnDialConnect | discovery.js:271-274 | the dialled peer is announced once its connection connects, provided that connection is still its own |
| Registry.OnServiceDown | discovery.js:289-306 | an unknown topic: nothing; otherwise a peer's connection is destroyed exactly when its topic set is exactly that topic; the registries are unchanged |
| Registry.OnStopAnnouncing | discovery.js:207-211 | the topic's `mdns` lane goes to `closed`, with one snapshot |
| Registry.Join | discovery.js:183-326 | throws exactly when the rendezvous lane is requested on a process without that transport; otherwise the topic is registered under its string with the activated handles, the events are the `joining` snapshot and then, with the rendezvous transport, the `joined` one; peers unchanged |
| Registry.JoinKeepsRegistrySize | discovery.js:187-193 | joining an already registered topic does not grow the topic registry |
| Registry.AnnouncedThenJoinedOnce | discovery.js:222-227 | a topic first registered passively by an announcement and then joined stays one registry entry under its string |
| Registry.Leave | discovery.js:351-374 | an unknown topic: nothing, no event; otherwise enabled lanes holding a handle go to `leaving`, then the rendezvous lane to `closed`, with those snapshots; the local handle is destroyed; the topic stays registered |
| Registry.LeaveTwiceSameLanes | discovery.js:351-374 | a second `leave` leaves the lanes where the first left them, while it does emit again |
| Registry.LeavePeer | discovery.js:387-393 | throws exactly for an unknown identity; otherwise only the peer's connection is destroyed |
| Registry.UpsertPeer | discovery.js:427-438 | a known identity gets `UpdatePeer` of the options; an unknown one gets `NewPeer` and throws exactly when no connection is given; a live connection is kept when no new one is given; other entries unchanged |
| Registry.GetPeersByTopic | discovery.js:328-332 | a registered peer is in the answer exactly when its topic set holds the topic |
| Discovery.Discovery.constructor | discovery.js:15-34 | a new Discovery has empty registries and logs and records the identity and the enabled transports |
| Discovery.Discovery.PeerList | discovery.js:46-50 | the `peers` getter yields one object per registered identity |
| Discovery.Discovery.TopicList | discovery.js:40-44 | the `topics` getter yields one object per registered topic |
| Discovery.Discovery.GetPeersByTopic | discovery.js:328-332 | a registered object is returned exactly when `Registry.GetPeersByTopic` returns its identity |
| Discovery.Discovery.UpdateTopicStatus | discovery.js:440-447 | updates the registered Topic object in place, and the abstract state moves as `Registry.UpdateTopicStatus` |
| Discovery.Discovery.AddPeer | discovery.js:86-95 | a fresh Peer built from the options is registered under the identity |
| Discovery.Discovery.PutTopic | discovery.js:187-193 | a fresh Topic is registered under the string, replacing any previous one |
| Discovery.Discovery.UpdateRegistered | discovery.js:430-431 | `update` on the registered object in place moves the abstract peer as `UpdatePeer` |
| Discovery.Discovery.AddTopicToRegistered | discovery.js:147-149 | `addTopic` on the registered object in place adds the topic to that peer only |
| Discovery.Discovery.MergeAnnouncement | discovery.js:240-245 | `update` plus `addTopic` on the registered object in place moves that peer as `Announced` |
| Discovery.Discovery.RegisterPassiveTopic | discovery.js:222-227 | the abstract state moves as `RegisterPassive`, and the Topic under the key is an old or a fresh object |
| Discovery.Discovery.OnInboundConnect | discovery.js:74-108 | the abstract state moves as `Registry.OnInboundConnect` |
| Discovery.Discovery.OnInboundClose | discovery.js:110-122 | the abstract state moves as `Registry.OnInboundClose` |
| Discovery.Discovery.OnPeerClose | discovery.js:118-120 | the abstract state moves as `Registry.OnPeerClose` |
| Discovery.Discovery.OnConnectionClose | discovery.js:151-156 | the abstract state moves as `Registry.CloseActive` |
| Discovery.Discovery.OnDhtConnection | discovery.js:127-165 | the abstract state moves as `Registry.OnDhtConnection` |
| Discovery.Discovery.OnDhtTopic | discovery.js:147-149 | the abstract state moves as `Registry.OnDhtTopic` |
| Discovery.Discovery.OnService | discovery.js:219-287 | the abstract state moves as `Registry.OnService` |
| Discovery.Discovery.OnDialConnect | discovery.js:271-274 | the abstract state moves as `Registry.OnDialConnect` |
| Discovery.Discovery.OnServiceDown | discovery.js:289-306 | the abstract state moves as `Registry.OnServiceDown` |
| Discovery.Discovery.OnStopAnnouncing | discovery.js:207-211 | the abstract state moves as `Registry.OnStopAnnouncing` |
| Discovery.Discovery.Join | discovery.js:183-326 | returns no Topic exactly when `Registry.Join` throws; otherwise returns the fresh registered Topic and the abstract state moves as `Registry.Join` |
| Discovery.Discovery.Leave | discovery.js:351-374 | the abstract state moves as `Registry.Leave` |
| Discovery.Discovery.LeavePeer | discovery.js:387-393 | fails exactly when `Registry.LeavePeer` throws; otherwise the abstract state moves as it says |
| Discovery.Discovery.UpsertPeer | discovery.js:427-438 | returns no Peer exactly when `Registry.UpsertPeer` throws; otherwise returns the registered object (the same object for a known identity) and the abstract state moves as it says |
| Traces.StepPreservesInv | discovery.js:74-393 | any one handler keeps peers keyed by their identity and topics by their string, with consistent lanes |
| Traces.RunPreservesInv | discovery.js:74-393 | every interleaving of handlers keeps that invariant |
| Traces.StepAppends | discovery.js:74-393 | any one handler only appends to the event and action logs |
| Traces.RunAppends | discovery.js:74-393 | every interleaving only appends to the logs |
| Traces.StepSelfNotRegistered | discovery.js:77-79 | provided the rendezvous transport does not deliver a connection from the local identity, no handler registers the local identity |
| Traces.StepSelfNotAnnounced | discovery.js:229-235 | under the same hypothesis on the rendezvous transport, no handler emits `connection` for the local identity |
| Traces.SelfNeverConnected | discovery.js:74-235 | over any interleaving in which the rendezvous transport never delivers the local identity, the local identity is never registered and never announced |
| Traces.StepKeepsConnection | discovery.js:81-145 | every step except the peer's own close keeps a registered identity with the same connection |
| Traces.StepAnnouncesOnly | discovery.js:81-274 | no step announces a registered identity with a connection other than its own |
| Traces.RegisteredPeerIsStable | discovery.js:81-274 | until its own close, a registered identity keeps its connection and is announced with no other connection, whatever duplicates arrive |
| Traces.ScenarioLoneJoin | discovery.js:183-326 | a join with both transports and no peers, then our own announcement: three snapshots, no peer, no action |
| Traces.ScenarioConnectClose | discovery.js:74-122 | connect, close, and peer close: exactly one `connection` and one `connectionClosed`, one destroy, and the peer is gone |
| Traces.ConnectionsForAppend | discovery.js:81-274 | the count of `connection` events for an identity adds up over concatenated logs |
| Traces.StepConnectionsFor | discovery.js:81-274 | one step emits a `connection` event for an identity exactly when it registers that identity through an inbound (not self) or rendezvous connection, or when the registered dialled connection of that identity connects |
| Traces.ConnectionsWithinBudget | discovery.js:81-274 | until its own close, an identity gets at most one more `connection` event if unregistered or if its dialled connection is still to connect, and none otherwise, assuming each dial connects once and dial handles are distinct from the other transports' |
| Traces.OneConnectionPerGeneration | discovery.js:81-274 | from an unregistered state until the peer's own close, at most one `connection` event announces an identity, under the same two transport assumptions |
| Traces.ScenarioRepeatedDialConnect | discovery.js:271-274 | a dialled peer whose connection reports `connect` twice is announced twice, so the bound above needs its dial assumption |
| Traces.ScenarioDuplicateRendezvous | discovery.js:127-149 | a rendezvous duplicate of a live peer: destroyed, no event, the original connection stays, and the announced topic joins the peer |
| AsWritten.PeerCloseUnboundKey | discovery.js:151-156 | as written, the peer-close listener never deletes the entry, so the registry keeps it |
| AsWritten.UnboundKeyBlocksReconnect | discovery.js:151-156 | as written, a reconnect of a closed rendezvous peer is destroyed as a duplicate and never announced; with the entry removed, it is registered and announced |
| AsWritten.GetPeersByTopicAsWritten | discovery.js:328-332 | as written, the query throws whenever any peer is registered |
| AsWritten.IncludeThrowsOnEveryMatch | discovery.js:328-332 | a peer on the topic: as written the query throws, corrected it returns that peer |
| AsWritten.OnDhtConnectionAsWritten | discovery.js:127-165 | as written, a rendezvous duplicate is destroyed and still announced with the registered peer |
| AsWritten.DuplicateAnnouncedAsWritten | discovery.js:130-165 | as written, a duplicate announces a connection other than the peer's own; corrected, it does not |
| AsWritten.DhtCloseAsWritten | discovery.js:151-156 | as written, the close of any rendezvous connection for an identity destroys the registered peer's connection |
| AsWritten.DuplicateCloseKillsOriginal | discovery.js:151-156 | the close of a destroyed rendezvous duplicate: as written it destroys the live connection, corrected it changes nothing |
| AsWritten.InboundCloseAsWritten | discovery.js:110-122 | as written, the close of any inbound connection from an identity reports the registered peer closed and destroys its connection |
| AsWritten.DuplicateInboundCloseKillsOriginal | discovery.js:81-122 | the close of a destroyed inbound duplicate: as written it emits `connectionClosed` and destroys the live connection, corrected it changes nothing |
| AsWritten.DialClosedAsWritten | discovery.js:276-281 | as written, the close of a dialled connection changes nothing |
| AsWritten.OnServiceAsWritten | discovery.js:219-259 | as written, an unknown topic is filed passively under its re-encoded string, the announcing peer gets that string as its topic, and an own announcement emits a snapshot with both lanes `deactivated` |
| AsWritten.PassiveTopicMissedAsWritten | discovery.js:222-227 | as written, an announcement of an unjoined topic followed by `join` leaves two Topics registered, and a following `serviceDown` leaves the peer in place |
| AsWritten.PassiveTopicFoundCorrected | discovery.js:222-227 | the same inputs on the corrected handler: `join` leaves one Topic, and `serviceDown` destroys the peer's connection |
| AsWritten.DialCloseNeverHandled | discovery.js:276-281 | as written, a dialled peer whose connection closed is never dialled again; corrected, its next announcement dials |

The `topics` getter of a Peer is `Peers.Peer.Topics`, and `toString` of a Topic is
`Topics.Topic.ToString`: each returns the field. `Discovery.InjectiveValuesCount`,
`Registry.Apply`/`Run`, `Traces.PrefixTransitive` and `Traces.RunUnfold` are helpers.

## Left out

- The transports themselves are not part of this model: the TCP server and dial (`net`),
  the `SecretStream` handshake, `Hyperswarm` and `MdnsDiscovery`, `_connect` and
  `_closeServer`. Each callback receives the verified identity and the address as
  values. A dial is the `Dial` action, with the handle it yields passed in. Inbound host
  and port are what the socket reports.
- z32 encoding and decoding (`encodeTopic`, `decodeTopic`, and the encoding in the
  Topic constructor) are a library. Topic keys are strings and topic buffers are not
  modelled. The encoder appears only as the `encode` parameter of
  `AsWritten.OnServiceAsWritten`.
- Registry.OnDhtConnection, Registry.OnDhtTopic and Registry.OnServiceDown identify a topic
  Buffer with its string. On the rendezvous path the peer's topics are the Buffers the
  swarm was joined with (`info.topics` at `discovery.js:136`, the `topic` listener at
  :147-149, `this.dht.join(topicBuffer, …)` at :190), while the local path adds z32
  strings (:245, :250). In the source, `serviceDown`'s `includes(txt.topic)` (:300) and
  `getPeersByTopic` never match a topic learned over the rendezvous transport, and one
  topic can sit in a peer's set twice, once per form. The model treats both as the same
  string, so `serviceDown` can destroy a rendezvous peer that the source keeps.
- Asynchronous scheduling: `await`, `process.nextTick`, and the refresh loop run after
  each rendezvous connection (`discovery.js:167-172`). Each handler is one atomic step,
  and `join` puts its rendezvous lane to `joined` in the same step. The deferred
  peer-close deletion is its own step (`PeerClosed`).
- Logging (`console.info`, `console.error`) and the error listeners that do nothing to
  state. The listener at `discovery.js:158-163` only destroys the connection, whose close
  then goes through the close path.
- `destroy()`, `joinPeer`, `toJSON` and `toBuffer`. They are teardown, a bare dial, and
  serialisation, outside the bookkeeping core.
- Insertion order of the JavaScript `Set` of a peer's topics and of the registries'
  iteration. Topic sets are `set<string>` and the getters return sets.
- The Topic object's own `status` event (`discovery.js:585-588`), which nobody in the
  core listens to. Only the Discovery-level snapshot is in the event log.
- Events carry a value snapshot of the peer rather than the live object.
- The rendezvous `topic` and `close` listeners (`discovery.js:147-156`) and the dialled
  connection's `connect` listener (`discovery.js:271-274`) capture the peer object. The
  model finds the peer by identity instead, which is the same object as long as the
  entry was not removed and replaced meanwhile. The `connect` listener emits
  unconditionally; `Registry.OnDialConnect` emits only while the dialled connection is
  still the peer's own, which is always the case before that dial connects. Likewise the
  `stopAnnouncing` listener (`discovery.js:207-211`) captures the Topic object;
  `Registry.OnStopAnnouncing` finds the topic by its string instead.
- The Topic constructor's `dhtStatus`/`mdnsStatus` options are never passed by the
  core, so every lane with a handle starts `closed`.
- Traces.ScenarioLoneJoin: with both transports, a lone join shows three snapshots, not
  two: after the `joining` and `joined` snapshots of `join`, the process hears its own
  announcement and sets the local lane to `joined`.
- Traces.StepSelfNotRegistered, Traces.StepSelfNotAnnounced and Traces.SelfNeverConnected
  assume that the rendezvous transport never delivers a connection from the local
  identity (`TransportSane`). The rendezvous handler (`discovery.js:127-145`) has no self
  guard, so the core itself does not ensure this; it is the transport's behaviour.
- Traces.OneConnectionPerGeneration bounds the `connection` events for one identity to one
  per registration only under two assumptions about the transports: each dialled
  connection connects at most once (`DialConnectsOnce`), and a dialled connection is never
  also delivered as an inbound or rendezvous connection (`DialHandlesDistinct`). The
  dial `connect` listener (`discovery.js:271-274`) keeps no record of having fired, so a
  repeated `connect` would announce the peer again (`Traces.ScenarioRepeatedDialConnect`).
- Traces.RegisteredPeerIsStable: needs neither transport assumption, and bounds only which
  connection is announced for a registered identity, not how often; the count is
  `Traces.OneConnectionPerGeneration`'s.

## Findings

| source | as written | input that shows it | evidently intended | confidence | as-written member | corrected member |
|---|---|---|---|---|---|---|
| discovery.js:151-156 | the peer-close listeners delete `remotePublicKey`, a name bound only in the inbound handler (also at :279, :303, :391), so they never delete the entry; at :154 the listener is added after the Peer's own `close` has already fired | a rendezvous peer whose connection closes, then a new connection from the same identity | delete the entry of that peer's identity, as `destroy()` does at :399 | not executed | AsWritten.UnboundKeyBlocksReconnect | Registry.OnPeerClose |
| discovery.js:328-332 | `peer.topics.include(topic)`: arrays have no `include`, so the call throws | any registered peer | `includes`: return the peers on the topic | not executed | AsWritten.IncludeThrowsOnEveryMatch | Registry.GetPeersByTopic |
| discovery.js:165 | `connection` is emitted after both branches, including the duplicate just destroyed | a rendezvous connection from a registered identity | announce only a newly registered peer | not executed | AsWritten.DuplicateAnnouncedAsWritten | Registry.OnDhtConnection |
| discovery.js:151-156 | the close listener destroys the looked-up peer, which for a duplicate is the registered one | the close of a destroyed rendezvous duplicate of a live peer | act only on the close of the peer's active connection | not executed | AsWritten.DuplicateCloseKillsOriginal | Registry.CloseActive |
| discovery.js:110-122 | the close handler looks the peer up by identity alone, so a duplicate's close finds the live peer | a second inbound connection from a live peer, destroyed, then closed | act only on the close of the peer's active connection | not executed | AsWritten.DuplicateInboundCloseKillsOriginal | Registry.OnInboundClose |
| discovery.js:276-281 | the listener is for `'closed'`, an event the connection never emits, so a dialled peer's close is never handled | a dialled peer whose connection closes, then a new announcement from it | listen for `'close'`: destroy the peer and remove its entry | not executed | AsWritten.DialCloseNeverHandled | Registry.CloseActive |
| discovery.js:225 | the passive Topic is built from `txt.topic`, already the topic's z32 string, so its constructor (:558) encodes it again and it is filed under a key that the lookups of `txt.topic` at :222 and :292 and `join` never use; the `joined` update at :230 then lands on a handle-less Topic and changes nothing | an announcement of a topic not yet joined, then `join` or `serviceDown` of that topic | file the passive Topic under `txt.topic`, so that `join` replaces it and `serviceDown` finds it | not executed | AsWritten.PassiveTopicMissedAsWritten | Registry.AnnouncedThenJoinedOnce |
