/** The Discovery object: two owned registries of mutable objects (peers by hex identity,
    topics by topic string) and the logs of what it emits and what it asks the transports
    to do. Each transport callback is a method that receives the verified remote identity,
    the topic string and the address as plain values; each is proved to move the abstract
    state exactly as the matching function of module Registry says. */
module Discovery {
  import opened Common
  import opened Peers
  import opened Topics
  import opened Registry

  /** A map that never stores one object under two keys has as many values as keys. */
  lemma {:induction false} InjectiveValuesCount<K, V>(m: map<K, V>)
    requires forall k, k' :: k in m && k' in m && k != k' ==> m[k] != m[k']
    ensures |m.Values| == |m|
    decreases |m|
  {
    if |m| > 0 {
      var k :| k in m;
      var m' := m - {k};
      InjectiveValuesCount(m');
      assert m.Values == m'.Values + {m[k]} by {
        forall v | v in m.Values ensures v in m'.Values + {m[k]} {
          var j :| j in m && m[j] == v;
          if j != k { assert j in m'; }
        }
      }
      assert m[k] !in m'.Values;
    }
  }

  class Discovery {
    const self: string
    const mdnsEnabled: bool
    const dhtEnabled: bool
    var peers: map<string, Peer>
    var topics: map<string, Topic>
    var events: seq<Event>
    var actions: seq<Action>

    function Configuration(): Config
    {
      Config(self, mdnsEnabled, dhtEnabled)
    }

    ghost function PeerView(): map<string, PeerValue>
      reads this`peers, peers.Values
    {
      map k | k in peers :: peers[k].Value()
    }

    ghost function TopicView(): map<string, TopicValue>
      reads this`topics, topics.Values
    {
      map k | k in topics :: topics[k].Value()
    }

    ghost function Abs(): State
      reads this, peers.Values, topics.Values
    {
      State(PeerView(), TopicView(), events, actions)
    }

    /** No Peer or Topic object is registered under two keys, so updating the object of one
        key leaves every other entry as it was. */
    ghost predicate Valid()
      reads this`peers, this`topics
    {
      && (forall k, k' :: k in peers && k' in peers && k != k' ==> peers[k] != peers[k'])
      && (forall k, k' :: k in topics && k' in topics && k != k' ==> topics[k] != topics[k'])
    }

    constructor (identity: string, dht: bool, mdns: bool)
      ensures Valid() && Abs() == Empty()
      ensures self == identity && mdnsEnabled == mdns && dhtEnabled == dht
    {
      self, dhtEnabled, mdnsEnabled := identity, dht, mdns;
      peers, topics, events, actions := map[], map[], [], [];
    }

    /** The `peers` getter: one Peer per registered identity. */
    function PeerList(): (r: set<Peer>)
      requires Valid()
      reads this, peers.Values, topics.Values
      ensures |r| == |peers|
      ensures forall k :: k in peers ==> peers[k] in r
    {
      InjectiveValuesCount(peers);
      peers.Values
    }

    /** The `topics` getter: one Topic per registered topic string. */
    function TopicList(): (r: set<Topic>)
      requires Valid()
      reads this, peers.Values, topics.Values
      ensures |r| == |topics|
      ensures forall k :: k in topics ==> topics[k] in r
    {
      InjectiveValuesCount(topics);
      topics.Values
    }

    function GetPeersByTopic(topic: string): (r: set<Peer>)
      reads this, peers.Values
      ensures forall k :: k in peers ==> (peers[k] in r <==> k in Registry.GetPeersByTopic(Abs(), topic))
      ensures forall p :: p in r ==> p in peers.Values
    {
      set p | p in peers.Values && topic in p.topics
    }

    /** Emit `e` to the application. */
    method Emit(e: Event)
      modifies this`events
      ensures Abs() == old(Abs()).(events := old(Abs()).events + [e])
    {
      events := events + [e];
    }

    /** Issue `a` to a transport. */
    method Command(a: Action)
      modifies this`actions
      ensures Abs() == old(Abs()).(actions := old(Abs()).actions + [a])
    {
      actions := actions + [a];
    }

    /** `_updateStatus` on the topic registered under `name`. */
    method UpdateTopicStatus(name: string, u: StatusUpdate)
      requires Valid() && name in topics
      modifies this`events, topics[name]
      ensures Valid() && topics == old(topics)
      ensures Abs() == Registry.UpdateTopicStatus(old(Abs()), name, u)
    {
      ghost var s := Abs();
      var t := topics[name];
      t.UpdateStatus(u);
      assert PeerView() == s.peers;
      assert TopicView() == s.topics[name := ApplyStatus(s.topics[name], u)];
      var lanes := t.Status();
      Emit(Status(t.ToString(), lanes.dht, lanes.mdns));
    }

    /** Put `p`, an object not yet registered, under the unknown identity `identity`. */
    method RegisterPeer(identity: string, p: Peer)
      requires Valid() && identity !in peers && p !in peers.Values
      modifies this`peers
      ensures Valid() && peers == old(peers)[identity := p]
      ensures Abs() == old(Abs()).(peers := old(Abs()).peers[identity := p.Value()])
    {
      ghost var s := Abs();
      peers := peers[identity := p];
      assert PeerView() == s.peers[identity := p.Value()];
    }

    /** Put `t`, an object not yet registered, under `name`, replacing any Topic there. */
    method RegisterTopic(name: string, t: Topic)
      requires Valid() && t !in topics.Values
      modifies this`topics
      ensures Valid() && topics == old(topics)[name := t]
      ensures Abs() == old(Abs()).(topics := old(Abs()).topics[name := t.Value()])
    {
      ghost var s := Abs();
      topics := topics[name := t];
      assert TopicView() == s.topics[name := t.Value()];
    }

    /** Register a new Peer built from `opts` under the unknown identity `identity`. */
    method AddPeer(identity: string, opts: PeerOptions) returns (p: Peer)
      requires Valid() && identity !in peers && opts.connection.Some?
      modifies this`peers
      ensures Valid() && fresh(p) && identity in peers && peers[identity] == p && p.Value() == NewPeer(opts)
      ensures Abs() == old(Abs()).(peers := old(Abs()).peers[identity := NewPeer(opts)])
    {
      ghost var s := Abs();
      p := new Peer(opts);
      assert Abs() == s;
      RegisterPeer(identity, p);
    }

    /** Register a new Topic under `name`, replacing any Topic registered there. */
    method PutTopic(name: string, dht: bool, mdns: bool) returns (t: Topic)
      requires Valid()
      modifies this`topics
      ensures Valid() && fresh(t) && name in topics && topics[name] == t
      ensures Abs() == old(Abs()).(topics := old(Abs()).topics[name := NewTopic(name, dht, mdns)])
    {
      ghost var s := Abs();
      t := new Topic(name, dht, mdns);
      assert Abs() == s;
      RegisterTopic(name, t);
    }

    /** `update` on the Peer registered under `identity`, in place. */
    method UpdateRegistered(identity: string, opts: PeerOptions)
      requires Valid() && identity in peers
      modifies peers[identity]
      ensures Valid()
      ensures Abs() == old(Abs()).(peers := old(Abs()).peers[identity := UpdatePeer(old(Abs()).peers[identity], opts)])
    {
      ghost var s := Abs();
      var p := peers[identity];
      p.Update(opts);
      assert TopicView() == s.topics;
      assert PeerView() == s.peers[identity := p.Value()];
    }

    /** `addTopic` on the Peer registered under `identity`, in place. */
    method AddTopicToRegistered(identity: string, topic: string)
      requires Valid() && identity in peers
      modifies peers[identity]
      ensures Valid()
      ensures Abs() == old(Abs()).(peers := old(Abs()).peers[identity := old(Abs()).peers[identity].(topics := old(Abs()).peers[identity].topics + {topic})])
    {
      ghost var s := Abs();
      var p := peers[identity];
      p.AddTopic(topic);
      assert TopicView() == s.topics;
      assert PeerView() == s.peers[identity := p.Value()];
    }

    /** A fresh announcement from the registered peer `identity`: `update` with its address
        and `addTopic`, in place. */
    method MergeAnnouncement(identity: string, host: string, port: int, name: string)
      requires Valid() && identity in peers
      modifies peers[identity]
      ensures Valid()
      ensures Abs() == old(Abs()).(peers := old(Abs()).peers[identity := Announced(old(Abs()).peers[identity], host, port, name)])
    {
      ghost var s := Abs();
      var p := peers[identity];
      p.Update(AddressOptions(host, port));
      p.AddTopic(name);
      assert TopicView() == s.topics;
      assert PeerView() == s.peers[identity := p.Value()];
    }

    method OnInboundConnect(remote: string, conn: Conn, host: string, port: int)
      requires Valid()
      modifies this
      ensures Valid() && Abs() == Registry.OnInboundConnect(Configuration(), old(Abs()), remote, conn, host, port)
    {
      if remote == self {
        return;
      }
      if remote in peers {
        Command(DestroyConnection(conn));
      } else {
        var p := AddPeer(remote, PeerOptions(Some(conn), [], Some(host), Some(port), Some(Mdns), Some(remote)));
        Emit(Connection(conn, p.Value()));
      }
    }

    method OnInboundClose(remote: string, conn: Conn)
      requires Valid()
      modifies this
      ensures Valid() && Abs() == Registry.OnInboundClose(old(Abs()), remote, conn)
    {
      if remote in peers && peers[remote].connection == conn {
        var p := peers[remote];
        Emit(ConnectionClosed(p.Value()));
        Command(DestroyConnection(p.connection));
      }
    }

    method OnPeerClose(identity: string)
      requires Valid()
      modifies this
      ensures Valid() && Abs() == Registry.OnPeerClose(old(Abs()), identity)
    {
      peers := peers - {identity};
      assert PeerView() == old(Abs()).peers - {identity};
    }

    /** The `close` listener of a rendezvous or dialled connection `conn` for `identity`. */
    method OnConnectionClose(identity: string, conn: Conn)
      requires Valid()
      modifies this
      ensures Valid() && Abs() == CloseActive(old(Abs()), identity, conn)
    {
      if identity in peers && peers[identity].connection == conn {
        Command(DestroyConnection(conn));
      }
    }

    method OnDhtConnection(remote: string, conn: Conn, host: string, port: int, infoTopics: seq<string>)
      requires Valid()
      modifies this
      ensures Valid() && Abs() == Registry.OnDhtConnection(old(Abs()), remote, conn, host, port, infoTopics)
    {
      if remote in peers {
        Command(DestroyConnection(conn));
      } else {
        var p := AddPeer(remote, PeerOptions(Some(conn), infoTopics, Some(host), Some(port), Some(Dht), Some(remote)));
        Emit(Connection(conn, p.Value()));
      }
    }

    method OnDhtTopic(remote: string, topic: string)
      requires Valid()
      modifies peers.Values
      ensures Valid() && Abs() == Registry.OnDhtTopic(old(Abs()), remote, topic)
    {
      if remote in peers {
        AddTopicToRegistered(remote, topic);
      }
    }

    /** The topic registered under `name`, or a passive Topic filed under `name`. */
    method RegisterPassiveTopic(name: string)
      requires Valid()
      modifies this`topics
      ensures Valid()
      ensures name in topics && (topics[name] in old(topics.Values) || fresh(topics[name]))
      ensures Abs() == RegisterPassive(old(Abs()), name)
    {
      if name !in topics {
        var t := PutTopic(name, false, false);
      }
    }

    method OnService(name: string, identity: string, host: string, port: int, conn: Conn)
      requires Valid()
      modifies this, peers.Values, topics.Values
      ensures Valid() && Abs() == Registry.OnService(Configuration(), old(Abs()), name, identity, host, port, conn)
    {
      RegisterPassiveTopic(name);
      if identity == self {
        UpdateTopicStatus(name, StatusUpdate(None, Some(Joined)));
      } else if identity in peers {
        MergeAnnouncement(identity, host, port, name);
      } else {
        Command(Dial(host, port, conn));
        var p := AddPeer(identity, DialledOptions(identity, host, port, name, conn));
      }
    }

    method OnDialConnect(identity: string, conn: Conn)
      requires Valid()
      modifies this
      ensures Valid() && Abs() == Registry.OnDialConnect(old(Abs()), identity, conn)
    {
      if identity in peers && peers[identity].connection == conn {
        Emit(Connection(conn, peers[identity].Value()));
      }
    }

    method OnServiceDown(name: string, identity: string)
      requires Valid()
      modifies this
      ensures Valid() && Abs() == Registry.OnServiceDown(old(Abs()), name, identity)
    {
      if name !in topics {
        return;
      }
      if identity in peers && peers[identity].topics == {name} {
        Command(DestroyConnection(peers[identity].connection));
      }
    }

    method OnStopAnnouncing(name: string)
      requires Valid()
      modifies this, topics.Values
      ensures Valid() && Abs() == Registry.OnStopAnnouncing(old(Abs()), name)
    {
      if name in topics {
        UpdateTopicStatus(name, StatusUpdate(None, Some(Closed)));
      }
    }

    /** `join`; returns null where the source throws. */
    method Join(name: string, optMdns: bool, optDht: bool) returns (t: Topic?)
      requires Valid()
      modifies this
      ensures Valid()
      ensures var r := Registry.Join(Configuration(), old(Abs()), name, optMdns, optDht);
        && (t == null <==> r.TypeError?)
        && Abs() == (if r.Ok? then r.value else old(Abs()))
      ensures t != null ==> fresh(t) && name in topics && topics[name] == t
    {
      var mdnsOn := Activated(optMdns, mdnsEnabled);
      var dhtOn := Activated(optDht, dhtEnabled);
      if dhtOn && !dhtEnabled {
        return null;
      }
      t := PutTopic(name, dhtOn, mdnsOn);
      UpdateTopicStatus(name, StatusUpdate(if dhtOn then Some(Joining) else None, if mdnsOn then Some(Joining) else None));
      if dhtOn {
        UpdateTopicStatus(name, StatusUpdate(Some(Joined), None));
      }
    }

    method Leave(name: string)
      requires Valid()
      modifies this, topics.Values
      ensures Valid() && Abs() == Registry.Leave(Configuration(), old(Abs()), name)
    {
      if name !in topics {
        return;
      }
      UpdateTopicStatus(name, StatusUpdate(if dhtEnabled then Some(Leaving) else None, if mdnsEnabled then Some(Leaving) else None));
      if dhtEnabled {
        UpdateTopicStatus(name, StatusUpdate(Some(Closed), None));
      }
      if mdnsEnabled {
        Command(DestroyTopic(name));
      }
    }

    /** `leavePeer`; returns false where the source throws. */
    method LeavePeer(identity: string) returns (ok: bool)
      requires Valid()
      modifies this
      ensures Valid()
      ensures var r := Registry.LeavePeer(old(Abs()), identity);
        && (ok <==> r.Ok?)
        && Abs() == (if r.Ok? then r.value else old(Abs()))
    {
      ok := identity in peers;
      if ok {
        Command(DestroyConnection(peers[identity].connection));
      }
    }

    /** `_upsertPeer`; returns null where the source throws. */
    method UpsertPeer(identity: string, opts: PeerOptions) returns (p: Peer?)
      requires Valid()
      modifies this, peers.Values
      ensures Valid()
      ensures var r := Registry.UpsertPeer(old(Abs()), identity, opts);
        && (p == null <==> r.TypeError?)
        && Abs() == (if r.Ok? then r.value else old(Abs()))
      ensures p != null ==> identity in peers && peers[identity] == p
      ensures p != null && identity in old(peers) ==> p == old(peers[identity])
    {
      if identity in peers {
        p := peers[identity];
        UpdateRegistered(identity, opts);
      } else if opts.connection.None? {
        p := null;
      } else {
        p := AddPeer(identity, opts);
      }
    }
  }
}
