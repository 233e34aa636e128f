/** The Discovery object's bookkeeping as values: the peer registry keyed by hex identity,
    the topic registry keyed by topic string, the log of events emitted to the application
    and the log of commands sent to the transports. One function per handler says what the
    handler does to that state; a `Step` names one handler invocation, so that sequences of
    them (any interleaving of transport callbacks) can be reasoned about. */
module Registry {
  import opened Common
  import opened Peers
  import opened Topics

  /** The local hex identity, and which transports were enabled at construction
      (`this.mdns` and `this.dht` are truthy). */
  datatype Config = Config(self: string, mdns: bool, dht: bool)

  /** What the application observes: `connection`, `connectionClosed` and `status`. */
  datatype Event =
    | Connection(conn: Conn, peer: PeerValue)
    | ConnectionClosed(peer: PeerValue)
    | Status(topic: string, dht: LaneStatus, mdns: LaneStatus)

  /** Commands the core issues to the transports: `connection.destroy()` (also what
      `peer.destroy()` does), the dial of `_connect`, and `topic.destroy()`. */
  datatype Action =
    | DestroyConnection(conn: Conn)
    | Dial(host: string, port: int, conn: Conn)
    | DestroyTopic(topic: string)

  datatype State = State(
    peers: map<string, PeerValue>,
    topics: map<string, TopicValue>,
    events: seq<Event>,
    actions: seq<Action>)

  function Empty(): State
  {
    State(map[], map[], [], [])
  }

  /** Every peer is registered under its own identity and every topic under its own
      string, and a lane without a handle is deactivated. */
  ghost predicate Inv(s: State)
  {
    && (forall k :: k in s.peers ==> s.peers[k].identity == Some(k))
    && (forall k :: k in s.topics ==> s.topics[k].name == k && LanesConsistent(s.topics[k]))
  }

  /** Every peer registered in `s` is still registered in `r`, with the same connection. */
  ghost predicate KeepsConnections(s: State, r: State)
  {
    forall k :: k in s.peers ==> k in r.peers && r.peers[k].connection == s.peers[k].connection
  }

  /** `r` only appended to the logs of `s`. */
  ghost predicate Appends(s: State, r: State)
  {
    s.events <= r.events && s.actions <= r.actions
  }

  /** `_updateStatus`: apply the update to the topic, then emit the full post-update
      snapshot `{topic, dht, mdns}`. */
  function UpdateTopicStatus(s: State, name: string, u: StatusUpdate): (r: State)
    requires name in s.topics
    ensures r.peers == s.peers && r.actions == s.actions
    ensures r.topics == s.topics[name := ApplyStatus(s.topics[name], u)]
    ensures r.events == s.events + [Status(s.topics[name].name, r.topics[name].dhtStatus, r.topics[name].mdnsStatus)]
    ensures Inv(s) ==> Inv(r)
  {
    var t := ApplyStatus(s.topics[name], u);
    s.(topics := s.topics[name := t], events := s.events + [Status(t.name, t.dhtStatus, t.mdnsStatus)])
  }

  // ---------------------------------------------------------------------------
  // Inbound TCP connections of the local-discovery transport

  /** The `connect` handler of an inbound encrypted connection whose handshake revealed
      `remote`; `host` and `port` are what the socket reports. */
  function OnInboundConnect(c: Config, s: State, remote: string, conn: Conn, host: string, port: int): (r: State)
    ensures remote == c.self ==> r == s
    ensures r.topics == s.topics
    ensures forall k :: k in s.peers ==> k in r.peers && r.peers[k] == s.peers[k]
    ensures r.peers.Keys == if remote == c.self then s.peers.Keys else s.peers.Keys + {remote}
    ensures remote != c.self && remote in s.peers ==>
      r.events == s.events && r.actions == s.actions + [DestroyConnection(conn)]
    ensures remote != c.self && remote !in s.peers ==>
      && r.peers[remote] == PeerValue({}, conn, Some(host), Some(port), Some(Mdns), Some(remote))
      && r.events == s.events + [Connection(conn, r.peers[remote])]
      && r.actions == s.actions
    ensures Inv(s) ==> Inv(r)
  {
    if remote == c.self then s
    else if remote in s.peers then s.(actions := s.actions + [DestroyConnection(conn)])
    else
      var p := NewPeer(PeerOptions(Some(conn), [], Some(host), Some(port), Some(Mdns), Some(remote)));
      s.(peers := s.peers[remote := p], events := s.events + [Connection(conn, p)])
  }

  /** The `close` handler of the inbound connection `conn` from `remote`: when `conn` is the
      registered peer's active connection, report the peer to the application and destroy
      that connection; the registry entry goes later, in `OnPeerClose`. The close of a
      discarded duplicate leaves everything alone. */
  function OnInboundClose(s: State, remote: string, conn: Conn): (r: State)
    ensures r.peers == s.peers && r.topics == s.topics
    ensures !(remote in s.peers && s.peers[remote].connection == conn) ==> r == s
    ensures remote in s.peers && s.peers[remote].connection == conn ==>
      && r.events == s.events + [ConnectionClosed(s.peers[remote])]
      && r.actions == s.actions + [DestroyConnection(conn)]
  {
    if remote in s.peers && s.peers[remote].connection == conn then
      var p := s.peers[remote];
      s.(events := s.events + [ConnectionClosed(p)], actions := s.actions + [DestroyConnection(p.connection)])
    else s
  }

  /** The Peer's own `close` listener: the entry for that identity leaves the registry.
      This is the one step that removes a peer. */
  function OnPeerClose(s: State, identity: string): (r: State)
    ensures identity !in r.peers && r.peers.Keys == s.peers.Keys - {identity}
    ensures forall k :: k in r.peers ==> r.peers[k] == s.peers[k]
    ensures r.topics == s.topics && r.events == s.events && r.actions == s.actions
    ensures Inv(s) ==> Inv(r)
  {
    s.(peers := s.peers - {identity})
  }

  /** The active connection `conn` of a registered peer closed: `peer.destroy()` destroys
      it. A close of any other connection for that identity (a discarded duplicate) leaves
      everything alone. Shared by the rendezvous and the dialled-connection handlers. */
  function CloseActive(s: State, identity: string, conn: Conn): (r: State)
    ensures r.peers == s.peers && r.topics == s.topics && r.events == s.events
    ensures r.actions == if identity in s.peers && s.peers[identity].connection == conn
                         then s.actions + [DestroyConnection(conn)] else s.actions
  {
    if identity in s.peers && s.peers[identity].connection == conn then
      s.(actions := s.actions + [DestroyConnection(conn)])
    else s
  }

  // ---------------------------------------------------------------------------
  // The rendezvous (DHT) transport

  /** The swarm's `connection` handler; `infoTopics` are the topics of the peer-info object,
      `host` and `port` the raw stream's remote address. A duplicate is destroyed and
      nothing is announced; a new identity becomes a 'dht' peer seeded with the topics. */
  function OnDhtConnection(s: State, remote: string, conn: Conn, host: string, port: int, infoTopics: seq<string>): (r: State)
    ensures r.topics == s.topics
    ensures forall k :: k in s.peers ==> k in r.peers && r.peers[k] == s.peers[k]
    ensures r.peers.Keys == s.peers.Keys + {remote}
    ensures remote in s.peers ==>
      r.peers == s.peers && r.events == s.events && r.actions == s.actions + [DestroyConnection(conn)]
    ensures remote !in s.peers ==>
      && r.peers[remote] == PeerValue(Elems(infoTopics), conn, Some(host), Some(port), Some(Dht), Some(remote))
      && r.events == s.events + [Connection(conn, r.peers[remote])]
      && r.actions == s.actions
    ensures Inv(s) ==> Inv(r)
  {
    if remote in s.peers then s.(actions := s.actions + [DestroyConnection(conn)])
    else
      var p := NewPeer(PeerOptions(Some(conn), infoTopics, Some(host), Some(port), Some(Dht), Some(remote)));
      s.(peers := s.peers[remote := p], events := s.events + [Connection(conn, p)])
  }

  /** The peer-info `topic` listener: the announced topic joins the registered peer's set,
      whether that peer was created by this connection or kept as the original. */
  function OnDhtTopic(s: State, remote: string, topic: string): (r: State)
    ensures r.peers.Keys == s.peers.Keys
    ensures forall k :: k in s.peers && k != remote ==> r.peers[k] == s.peers[k]
    ensures remote in s.peers ==> r.peers[remote] == s.peers[remote].(topics := s.peers[remote].topics + {topic})
    ensures r.topics == s.topics && r.events == s.events && r.actions == s.actions
    ensures Inv(s) ==> Inv(r)
  {
    if remote in s.peers then
      var p := s.peers[remote];
      s.(peers := s.peers[remote := p.(topics := p.topics + {topic})])
    else s
  }

  // ---------------------------------------------------------------------------
  // The local-discovery (mDNS) transport

  /** The topic registered under `name`, or, when the name is unknown, a passive Topic (no
      transport handles) filed under that same string. */
  function RegisterPassive(s: State, name: string): (r: State)
    ensures name in r.topics && r.topics.Keys == s.topics.Keys + {name}
    ensures name in s.topics ==> r == s
    ensures name !in s.topics ==> r == s.(topics := s.topics[name := NewTopic(name, false, false)])
  {
    if name in s.topics then s else s.(topics := s.topics[name := NewTopic(name, false, false)])
  }

  /** What the `service` handler does to a registered peer: `update` with the announced
      address, then `addTopic`. Only a non-empty host and a non-zero port overwrite the
      address; the connection, the identity and the discovery type stay. */
  function Announced(p: PeerValue, host: string, port: int, topic: string): (r: PeerValue)
    ensures r.topics == p.topics + {topic}
    ensures r.connection == p.connection && r.identity == p.identity && r.discoveryType == p.discoveryType
    ensures r.host == (if host != "" then Some(host) else p.host)
    ensures r.port == (if port != 0 then Some(port) else p.port)
  {
    var q := UpdatePeer(p, AddressOptions(host, port));
    q.(topics := q.topics + {topic})
  }

  /** The options of the Peer the `service` handler creates for an unknown identity. */
  function DialledOptions(identity: string, host: string, port: int, topic: string, conn: Conn): PeerOptions
  {
    PeerOptions(Some(conn), [topic], Some(host), Some(port), Some(Mdns), Some(identity))
  }

  /** The `service` handler: a service for topic `name` announced by `identity` at
      `host:port`; `conn` is the handle `_connect` returns when this handler dials. The
      topic is found or passively registered; our own announcement marks the local lane
      `joined`; a known identity gets the new address and topic; an unknown one is dialled
      and registered. */
  function OnService(c: Config, s: State, name: string, identity: string, host: string, port: int, conn: Conn): (r: State)
    ensures name in r.topics && r.topics.Keys == s.topics.Keys + {name}
    ensures forall k :: k in s.topics && k != name ==> r.topics[k] == s.topics[k]
    ensures name !in s.topics ==> r.topics[name] == NewTopic(name, false, false)
    ensures identity == c.self ==>
      && r.peers == s.peers && r.actions == s.actions
      && r.events == s.events + [Status(r.topics[name].name, r.topics[name].dhtStatus, r.topics[name].mdnsStatus)]
    ensures identity == c.self && name in s.topics ==>
      r.topics[name] == ApplyStatus(s.topics[name], StatusUpdate(None, Some(Joined)))
    ensures identity != c.self ==> r.events == s.events
    ensures identity != c.self && name in s.topics ==> r.topics == s.topics
    ensures identity != c.self ==>
      && r.peers.Keys == s.peers.Keys + {identity}
      && forall k :: k in s.peers && k != identity ==> r.peers[k] == s.peers[k]
    ensures identity != c.self && identity in s.peers ==>
      && r.actions == s.actions
      && r.peers[identity] == Announced(s.peers[identity], host, port, name)
    ensures identity != c.self && identity !in s.peers ==>
      && r.actions == s.actions + [Dial(host, port, conn)]
      && r.peers[identity] == PeerValue({name}, conn, Some(host), Some(port), Some(Mdns), Some(identity))
    ensures KeepsConnections(s, r)
    ensures Inv(s) ==> Inv(r)
  {
    var s1 := RegisterPassive(s, name);
    if identity == c.self then
      UpdateTopicStatus(s1, name, StatusUpdate(None, Some(Joined)))
    else if identity in s1.peers then
      s1.(peers := s1.peers[identity := Announced(s1.peers[identity], host, port, name)])
    else
      var s2 := s1.(actions := s1.actions + [Dial(host, port, conn)]);
      s2.(peers := s2.peers[identity := NewPeer(DialledOptions(identity, host, port, name, conn))])
  }

  /** The dialled connection's `connect` listener: the peer created for the dial is
      announced to the application, provided `conn` is still its connection. */
  function OnDialConnect(s: State, identity: string, conn: Conn): (r: State)
    ensures r.peers == s.peers && r.topics == s.topics && r.actions == s.actions
    ensures r.events == if identity in s.peers && s.peers[identity].connection == conn
                        then s.events + [Connection(conn, s.peers[identity])] else s.events
  {
    if identity in s.peers && s.peers[identity].connection == conn then
      s.(events := s.events + [Connection(conn, s.peers[identity])])
    else s
  }

  /** The `serviceDown` handler: nothing for an unknown topic; otherwise a peer known only
      through this one topic is destroyed (its entry goes in `OnPeerClose`). */
  function OnServiceDown(s: State, name: string, identity: string): (r: State)
    ensures r.peers == s.peers && r.topics == s.topics && r.events == s.events
    ensures name !in s.topics ==> r == s
    ensures r.actions == if name in s.topics && identity in s.peers && s.peers[identity].topics == {name}
                         then s.actions + [DestroyConnection(s.peers[identity].connection)] else s.actions
  {
    if name !in s.topics then s
    else if identity in s.peers && s.peers[identity].topics == {name} then
      s.(actions := s.actions + [DestroyConnection(s.peers[identity].connection)])
    else s
  }

  /** The `stopAnnouncing` listener: the local lane of the topic is closed. */
  function OnStopAnnouncing(s: State, name: string): (r: State)
    ensures name !in s.topics ==> r == s
    ensures name in s.topics ==> r == UpdateTopicStatus(s, name, StatusUpdate(None, Some(Closed)))
    ensures r.peers == s.peers && r.topics.Keys == s.topics.Keys
    ensures Inv(s) ==> Inv(r)
  {
    if name in s.topics then UpdateTopicStatus(s, name, StatusUpdate(None, Some(Closed))) else s
  }

  // ---------------------------------------------------------------------------
  // join / leave

  /** A lane is used by `join` when the option asks for it or the transport is enabled. */
  function Activated(option: bool, enabled: bool): bool
  {
    option || enabled
  }

  /** `join`: a new Topic with a handle for every activated lane is registered under
      `name`, replacing whatever was registered there; every activated lane goes to
      `joining`, and, when the rendezvous lane is active, it goes to `joined` once the
      announcement is flushed. Asking for the rendezvous lane on a process without that
      transport throws before anything is registered. */
  function Join(c: Config, s: State, name: string, optMdns: bool, optDht: bool): (r: Result<State>)
    ensures r.TypeError? <==> optDht && !c.dht
    ensures r.Ok? ==>
      var mdnsOn := Activated(optMdns, c.mdns);
      var m := if mdnsOn then Joining else Deactivated;
      && r.value.peers == s.peers && r.value.actions == s.actions
      && r.value.topics == s.topics[name := TopicValue(name, c.dht, mdnsOn, if c.dht then Joined else Deactivated, m)]
      && r.value.events == s.events + if c.dht then [Status(name, Joining, m), Status(name, Joined, m)]
                                      else [Status(name, Deactivated, m)]
    ensures r.Ok? && Inv(s) ==> Inv(r.value)
  {
    var mdnsOn := Activated(optMdns, c.mdns);
    var dhtOn := Activated(optDht, c.dht);
    if dhtOn && !c.dht then TypeError
    else
      var s1 := s.(topics := s.topics[name := NewTopic(name, dhtOn, mdnsOn)]);
      var s2 := UpdateTopicStatus(s1, name, StatusUpdate(if dhtOn then Some(Joining) else None, if mdnsOn then Some(Joining) else None));
      Ok(if dhtOn then UpdateTopicStatus(s2, name, StatusUpdate(Some(Joined), None)) else s2)
  }

  /** `leave`: nothing for an unknown topic; otherwise every enabled lane goes to
      `leaving`, then the rendezvous lane to `closed`, and the local handle is destroyed.
      The topic stays registered. */
  function Leave(c: Config, s: State, name: string): (r: State)
    ensures name !in s.topics ==> r == s
    ensures r.peers == s.peers && r.topics.Keys == s.topics.Keys
    ensures forall k :: k in s.topics && k != name ==> r.topics[k] == s.topics[k]
    ensures name in s.topics ==>
      var t, t' := s.topics[name], r.topics[name];
      && t'.name == t.name && t'.hasDht == t.hasDht && t'.hasMdns == t.hasMdns
      && t'.dhtStatus == (if c.dht && t.hasDht then Closed else t.dhtStatus)
      && t'.mdnsStatus == (if c.mdns && t.hasMdns then Leaving else t.mdnsStatus)
      && r.events == s.events + (if c.dht then [Status(t.name, if t.hasDht then Leaving else t.dhtStatus, t'.mdnsStatus),
                                               Status(t.name, t'.dhtStatus, t'.mdnsStatus)]
                                 else [Status(t.name, t'.dhtStatus, t'.mdnsStatus)])
      && r.actions == s.actions + (if c.mdns then [DestroyTopic(name)] else [])
    ensures Inv(s) ==> Inv(r)
  {
    if name !in s.topics then s
    else
      var s1 := UpdateTopicStatus(s, name, StatusUpdate(if c.dht then Some(Leaving) else None, if c.mdns then Some(Leaving) else None));
      var s2 := if c.dht then UpdateTopicStatus(s1, name, StatusUpdate(Some(Closed), None)) else s1;
      if c.mdns then s2.(actions := s2.actions + [DestroyTopic(name)]) else s2
  }

  /** Joining a topic already registered does not grow the topic registry. */
  lemma JoinKeepsRegistrySize(c: Config, s: State, name: string, optMdns: bool, optDht: bool)
    requires name in s.topics && Join(c, s, name, optMdns, optDht).Ok?
    ensures |Join(c, s, name, optMdns, optDht).value.topics| == |s.topics|
  {
    var r := Join(c, s, name, optMdns, optDht).value;
    assert r.topics.Keys == s.topics.Keys;
  }

  /** A topic first seen in a remote announcement and then joined is registered once: the
      join replaces the passive Topic under the same string. */
  lemma AnnouncedThenJoinedOnce(c: Config, s: State, name: string, identity: string, host: string, port: int, conn: Conn, optMdns: bool, optDht: bool)
    requires Join(c, s, name, optMdns, optDht).Ok?
    ensures var s1 := OnService(c, s, name, identity, host, port, conn);
      && Join(c, s1, name, optMdns, optDht).Ok?
      && |Join(c, s1, name, optMdns, optDht).value.topics| == |s1.topics|
      && name in Join(c, s1, name, optMdns, optDht).value.topics
  {
    var s1 := OnService(c, s, name, identity, host, port, conn);
    JoinKeepsRegistrySize(c, s1, name, optMdns, optDht);
  }

  /** A second `leave` of the same topic leaves the lanes where the first one left them;
      it does emit its snapshots again. */
  lemma LeaveTwiceSameLanes(c: Config, s: State, name: string)
    ensures Leave(c, Leave(c, s, name), name).topics == Leave(c, s, name).topics
    ensures name in s.topics ==> |Leave(c, Leave(c, s, name), name).events| > |Leave(c, s, name).events|
  {
  }

  // ---------------------------------------------------------------------------
  // Peer-level operations

  /** `leavePeer`: destroy the registered peer's connection; an unknown identity throws. */
  function LeavePeer(s: State, identity: string): (r: Result<State>)
    ensures r.TypeError? <==> identity !in s.peers
    ensures r.Ok? ==> r.value == s.(actions := s.actions + [DestroyConnection(s.peers[identity].connection)])
  {
    if identity in s.peers then Ok(s.(actions := s.actions + [DestroyConnection(s.peers[identity].connection)]))
    else TypeError
  }

  /** `_upsertPeer`: merge the options into a registered peer, or register a new one. A new
      Peer without a connection throws in its constructor, before anything is registered. */
  function UpsertPeer(s: State, identity: string, opts: PeerOptions): (r: Result<State>)
    ensures r.TypeError? <==> identity !in s.peers && opts.connection.None?
    ensures r.Ok? ==>
      && r.value.topics == s.topics && r.value.events == s.events && r.value.actions == s.actions
      && r.value.peers.Keys == s.peers.Keys + {identity}
      && (forall k :: k in s.peers && k != identity ==> r.value.peers[k] == s.peers[k])
      && r.value.peers[identity] == if identity in s.peers then UpdatePeer(s.peers[identity], opts) else NewPeer(opts)
    ensures r.Ok? && identity in s.peers && opts.connection.None? ==>
      r.value.peers[identity].connection == s.peers[identity].connection
  {
    if identity in s.peers then Ok(s.(peers := s.peers[identity := UpdatePeer(s.peers[identity], opts)]))
    else if opts.connection.None? then TypeError
    else Ok(s.(peers := s.peers[identity := NewPeer(opts)]))
  }

  /** `getPeersByTopic`: the registered peers whose topic set holds `topic`. */
  function GetPeersByTopic(s: State, topic: string): (r: map<string, PeerValue>)
    ensures forall k :: k in r ==> k in s.peers && r[k] == s.peers[k]
    ensures forall k :: k in s.peers ==> (k in r <==> topic in s.peers[k].topics)
  {
    map k | k in s.peers && topic in s.peers[k].topics :: s.peers[k]
  }

  // ---------------------------------------------------------------------------
  // Interleavings

  /** One handler invocation. */
  datatype Step =
    | InboundConnected(remote: string, conn: Conn, host: string, port: int)
    | InboundClosed(remote: string, conn: Conn)
    | DhtConnected(remote: string, conn: Conn, host: string, port: int, infoTopics: seq<string>)
    | DhtTopicAnnounced(remote: string, topic: string)
    | DhtClosed(remote: string, conn: Conn)
    | ServiceFound(topic: string, identity: string, host: string, port: int, conn: Conn)
    | DialConnected(identity: string, conn: Conn)
    | DialClosed(identity: string, conn: Conn)
    | ServiceLost(topic: string, identity: string)
    | AnnouncingStopped(topic: string)
    | PeerClosed(identity: string)
    | JoinCalled(topic: string, mdns: bool, dht: bool)
    | LeaveCalled(topic: string)
    | LeavePeerCalled(identity: string)

  /** A call that throws leaves the state as it was. */
  function Apply(c: Config, s: State, st: Step): State
  {
    match st
    case InboundConnected(remote, conn, host, port) => OnInboundConnect(c, s, remote, conn, host, port)
    case InboundClosed(remote, conn) => OnInboundClose(s, remote, conn)
    case DhtConnected(remote, conn, host, port, ts) => OnDhtConnection(s, remote, conn, host, port, ts)
    case DhtTopicAnnounced(remote, topic) => OnDhtTopic(s, remote, topic)
    case DhtClosed(remote, conn) => CloseActive(s, remote, conn)
    case ServiceFound(topic, identity, host, port, conn) => OnService(c, s, topic, identity, host, port, conn)
    case DialConnected(identity, conn) => OnDialConnect(s, identity, conn)
    case DialClosed(identity, conn) => CloseActive(s, identity, conn)
    case ServiceLost(topic, identity) => OnServiceDown(s, topic, identity)
    case AnnouncingStopped(topic) => OnStopAnnouncing(s, topic)
    case PeerClosed(identity) => OnPeerClose(s, identity)
    case JoinCalled(topic, mdns, dht) => (match Join(c, s, topic, mdns, dht) case Ok(r) => r case TypeError => s)
    case LeaveCalled(topic) => Leave(c, s, topic)
    case LeavePeerCalled(identity) => (match LeavePeer(s, identity) case Ok(r) => r case TypeError => s)
  }

  function Run(c: Config, s: State, steps: seq<Step>): State
    decreases |steps|
  {
    if steps == [] then s else Run(c, Apply(c, s, steps[0]), steps[1..])
  }
}
