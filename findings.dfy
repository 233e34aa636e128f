/** Handlers as the source writes them, where that differs from what it evidently means,
    each with an input on which the two part ways. The rest of the model uses the
    corrected handlers of module Registry. */
module AsWritten {
  import opened Common
  import opened Peers
  import opened Topics
  import opened Registry
  import opened Traces

  // ---------------------------------------------------------------------------
  // The Peer `close` listeners of the rendezvous, dial, serviceDown and leavePeer paths
  // delete the key `remotePublicKey`, a name bound only in the inbound handler.

  /** Such a listener never deletes the entry: where it runs, evaluating the unbound name
      throws first, and in the rendezvous handler it is added after the Peer's own `close`
      has fired. */
  function PeerCloseUnboundKey(s: State, identity: string): (r: State)
    ensures r.peers == s.peers
  {
    s
  }

  /** A rendezvous peer whose connection closed stays registered as written, so the next
      inbound connection from the same identity is destroyed as a duplicate and never
      announced; with the entry removed, that connection is registered and announced. */
  lemma UnboundKeyBlocksReconnect(c: Config, s: State, id: string, conn: Conn, host: string, port: int)
    requires id in s.peers && id != c.self
    ensures var closed := CloseActive(s, id, s.peers[id].connection);
      var r := OnInboundConnect(c, PeerCloseUnboundKey(closed, id), id, conn, host, port);
      r.events == closed.events && r.actions == closed.actions + [DestroyConnection(conn)]
    ensures var closed := CloseActive(s, id, s.peers[id].connection);
      var r := OnInboundConnect(c, OnPeerClose(closed, id), id, conn, host, port);
      && r.events == closed.events + [Connection(conn, r.peers[id])]
      && r.peers[id].connection == conn
  {
  }

  // ---------------------------------------------------------------------------
  // getPeersByTopic calls `include` on the array the `topics` getter returns; arrays have
  // `includes`, not `include`.

  /** As written: a TypeError as soon as the filter callback runs, that is, whenever a
      peer is registered; an empty registry gives an empty answer. */
  function GetPeersByTopicAsWritten(s: State, topic: string): (r: Result<map<string, PeerValue>>)
    ensures r.TypeError? <==> s.peers != map[]
    ensures r.Ok? ==> r.value == map[]
  {
    if s.peers == map[] then Ok(map[]) else TypeError
  }

  /** A registered peer on the topic: the call as written throws, the corrected query
      returns that peer. */
  lemma IncludeThrowsOnEveryMatch(s: State, topic: string, id: string)
    requires id in s.peers && topic in s.peers[id].topics
    ensures GetPeersByTopicAsWritten(s, topic).TypeError?
    ensures id in GetPeersByTopic(s, topic) && GetPeersByTopic(s, topic)[id] == s.peers[id]
  {
    assert id in s.peers.Keys;
  }

  // ---------------------------------------------------------------------------
  // The rendezvous `connection` handler emits `connection` after both branches, including
  // the one that has just destroyed a duplicate.

  /** As written: a duplicate is destroyed and then announced with the registered peer. */
  function OnDhtConnectionAsWritten(s: State, remote: string, conn: Conn, host: string, port: int, infoTopics: seq<string>): (r: State)
    ensures remote in s.peers ==> r.events == s.events + [Connection(conn, s.peers[remote])]
    ensures remote !in s.peers ==> r == OnDhtConnection(s, remote, conn, host, port, infoTopics)
  {
    if remote in s.peers then
      s.(actions := s.actions + [DestroyConnection(conn)], events := s.events + [Connection(conn, s.peers[remote])])
    else OnDhtConnection(s, remote, conn, host, port, infoTopics)
  }

  /** A duplicate from a registered identity: as written, the application is told about
      a connection other than the peer's own (one already destroyed); the corrected
      handler announces nothing. */
  lemma DuplicateAnnouncedAsWritten(s: State, id: string, conn: Conn, host: string, port: int, infoTopics: seq<string>)
    requires Inv(s) && id in s.peers && conn != s.peers[id].connection
    ensures !AnnouncesOnly(OnDhtConnectionAsWritten(s, id, conn, host, port, infoTopics).events, |s.events|, id, s.peers[id].connection)
    ensures AnnouncesOnly(OnDhtConnection(s, id, conn, host, port, infoTopics).events, |s.events|, id, s.peers[id].connection)
  {
    var r := OnDhtConnectionAsWritten(s, id, conn, host, port, infoTopics);
    assert r.events[|s.events|] == Connection(conn, s.peers[id]);
  }

  // ---------------------------------------------------------------------------
  // The rendezvous `close` listener calls `destroy` on the peer the handler looked up,
  // which for a duplicate is the registered peer.

  /** As written: the close of any rendezvous connection for `identity` destroys the
      registered peer's connection. */
  function DhtCloseAsWritten(s: State, identity: string, conn: Conn): (r: State)
    ensures r.peers == s.peers && r.events == s.events
    ensures identity in s.peers ==> r.actions == s.actions + [DestroyConnection(s.peers[identity].connection)]
  {
    if identity in s.peers then s.(actions := s.actions + [DestroyConnection(s.peers[identity].connection)]) else s
  }

  /** The discarded duplicate of a live peer closes (it was destroyed, so it does): as
      written, the peer's live connection is destroyed with it; the corrected listener
      leaves everything alone. */
  lemma DuplicateCloseKillsOriginal(s: State, id: string, conn: Conn, host: string, port: int)
    requires id in s.peers && conn != s.peers[id].connection
    ensures var s1 := OnDhtConnection(s, id, conn, host, port, []);
      DestroyConnection(s.peers[id].connection) in DhtCloseAsWritten(s1, id, conn).actions[|s1.actions|..]
    ensures var s1 := OnDhtConnection(s, id, conn, host, port, []);
      CloseActive(s1, id, conn) == s1
  {
    var s1 := OnDhtConnection(s, id, conn, host, port, []);
    assert DhtCloseAsWritten(s1, id, conn).actions[|s1.actions|..] == [DestroyConnection(s.peers[id].connection)];
  }

  // ---------------------------------------------------------------------------
  // The inbound `close` listener looks the peer up by identity alone, so the close of a
  // discarded duplicate finds the registered peer.

  /** As written: the close of any inbound connection from `remote` reports the registered
      peer as closed and destroys its connection. */
  function InboundCloseAsWritten(s: State, remote: string): (r: State)
    ensures r.peers == s.peers && r.topics == s.topics
    ensures remote !in s.peers ==> r == s
    ensures remote in s.peers ==>
      && r.events == s.events + [ConnectionClosed(s.peers[remote])]
      && r.actions == s.actions + [DestroyConnection(s.peers[remote].connection)]
  {
    if remote in s.peers then
      var p := s.peers[remote];
      s.(events := s.events + [ConnectionClosed(p)], actions := s.actions + [DestroyConnection(p.connection)])
    else s
  }

  /** A second inbound connection from a live peer is destroyed as a duplicate, and then
      closes: as written, the application is told the live peer closed and its connection
      is destroyed; the corrected listener leaves everything alone. */
  lemma DuplicateInboundCloseKillsOriginal(c: Config, s: State, id: string, conn: Conn, host: string, port: int)
    requires id in s.peers && id != c.self && conn != s.peers[id].connection
    ensures var s1 := OnInboundConnect(c, s, id, conn, host, port);
      var r := InboundCloseAsWritten(s1, id);
      && r.events == s.events + [ConnectionClosed(s.peers[id])]
      && r.actions == s.actions + [DestroyConnection(conn), DestroyConnection(s.peers[id].connection)]
    ensures var s1 := OnInboundConnect(c, s, id, conn, host, port);
      OnInboundClose(s1, id, conn) == s1
  {
  }

  // ---------------------------------------------------------------------------
  // The `service` handler builds a passive Topic from `txt.topic`, which is already the
  // z32 string of the topic; the Topic constructor encodes it once more, and the Topic is
  // filed under that second encoding, a key no lookup of `txt.topic` finds.

  /** As written, with `encode` the z32 encoder: a topic unknown under `name` is filed
      passively under `encode(name)`, and the announcing peer gets that string as its
      topic. A known topic is handled as in the corrected handler. */
  function OnServiceAsWritten(c: Config, encode: string -> string, s: State, name: string, identity: string, host: string, port: int, conn: Conn): (r: State)
    ensures name in s.topics ==> r == OnService(c, s, name, identity, host, port, conn)
    ensures name !in s.topics ==> r.topics == s.topics[encode(name) := NewTopic(encode(name), false, false)]
    ensures name !in s.topics && identity == c.self ==>
      r.events == s.events + [Status(encode(name), Deactivated, Deactivated)]
    ensures name !in s.topics && identity != c.self && identity !in s.peers ==>
      && r.actions == s.actions + [Dial(host, port, conn)]
      && r.peers == s.peers[identity := PeerValue({encode(name)}, conn, Some(host), Some(port), Some(Mdns), Some(identity))]
  {
    if name in s.topics then OnService(c, s, name, identity, host, port, conn)
    else
      var key := encode(name);
      var s1 := s.(topics := s.topics[key := NewTopic(key, false, false)]);
      if identity == c.self then
        UpdateTopicStatus(s1, key, StatusUpdate(None, Some(Joined)))
      else if identity in s1.peers then
        s1.(peers := s1.peers[identity := Announced(s1.peers[identity], host, port, key)])
      else
        var s2 := s1.(actions := s1.actions + [Dial(host, port, conn)]);
        assert NewPeer(DialledOptions(identity, host, port, key, conn)).topics == {key};
        s2.(peers := s2.peers[identity := NewPeer(DialledOptions(identity, host, port, key, conn))])
  }

  /** A remote announcement of a topic not yet joined, then `join` or `serviceDown` of that
      topic, as written: the join registers a second Topic beside the passive one, and the
      withdrawal finds no topic, so the peer known only through it is never dropped. */
  lemma PassiveTopicMissedAsWritten(c: Config, encode: string -> string, name: string, id: string, host: string, port: int, conn: Conn)
    requires id != c.self && encode(name) != name
    ensures var s1 := OnServiceAsWritten(c, encode, Empty(), name, id, host, port, conn);
      && Join(c, s1, name, false, false).Ok?
      && |Join(c, s1, name, false, false).value.topics| == 2
      && OnServiceDown(s1, name, id) == s1
  {
    var p := PeerValue({encode(name)}, conn, Some(host), Some(port), Some(Mdns), Some(id));
    var s1 := OnServiceAsWritten(c, encode, Empty(), name, id, host, port, conn);
    assert s1.topics == map[encode(name) := NewTopic(encode(name), false, false)];
    assert name !in s1.topics;
    var j1 := Join(c, s1, name, false, false).value;
    assert j1.topics.Keys == {encode(name), name};
    assert |j1.topics| == |j1.topics.Keys|;
  }

  /** The same inputs on the corrected handler: the join replaces the passive Topic, and
      the withdrawal destroys the peer's connection. */
  lemma PassiveTopicFoundCorrected(c: Config, name: string, id: string, host: string, port: int, conn: Conn)
    requires id != c.self
    ensures var s1 := OnService(c, Empty(), name, id, host, port, conn);
      && Join(c, s1, name, false, false).Ok?
      && |Join(c, s1, name, false, false).value.topics| == 1
      && OnServiceDown(s1, name, id).actions == s1.actions + [DestroyConnection(conn)]
  {
    var s1 := OnService(c, Empty(), name, id, host, port, conn);
    assert s1.topics.Keys == {name};
    assert s1.peers[id].topics == {name};
    var j1 := Join(c, s1, name, false, false).value;
    assert j1.topics.Keys == {name};
    assert |j1.topics| == |j1.topics.Keys|;
  }

  // ---------------------------------------------------------------------------
  // The `service` handler listens for 'closed' on the dialled connection, which emits
  // 'close'; the listener never runs.

  /** As written: the close of a dialled connection changes nothing. */
  function DialClosedAsWritten(s: State, identity: string, conn: Conn): (r: State)
    ensures r.peers == s.peers && r.actions == s.actions
  {
    s
  }

  /** A dialled peer whose connection closed stays registered as written, so its next
      announcement takes the registered-peer branch and is never dialled again; when the
      close destroys the connection and the peer's close removes it, the announcement
      dials. */
  lemma DialCloseNeverHandled(c: Config, s: State, name: string, id: string, host: string, port: int, conn: Conn, conn2: Conn)
    requires id in s.peers && id != c.self && s.peers[id].connection == conn
    ensures var s1 := DialClosedAsWritten(s, id, conn);
      OnService(c, s1, name, id, host, port, conn2).actions == s1.actions
    ensures var s1 := OnPeerClose(CloseActive(s, id, conn), id);
      && s1.actions == s.actions + [DestroyConnection(conn)]
      && OnService(c, s1, name, id, host, port, conn2).actions == s1.actions + [Dial(host, port, conn2)]
  {
  }
}
