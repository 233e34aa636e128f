/** One remote identity: the topics it was seen on, its last address, how it was
    discovered, and its connection handle. */
module Peers {
  import opened Common

  datatype DiscoveryType = Mdns | Dht

  /** The options bag taken by the Peer constructor and by `update`; `None` is a missing
      member. */
  datatype PeerOptions = PeerOptions(
    connection: Option<Conn>,
    topics: seq<string>,
    host: Option<string>,
    port: Option<int>,
    discoveryType: Option<DiscoveryType>,
    identity: Option<string>)

  /** The observable state of a Peer. Host, port, discovery type and identity are whatever
      the constructor was given, so each may be missing. */
  datatype PeerValue = PeerValue(
    topics: set<string>,
    connection: Conn,
    host: Option<string>,
    port: Option<int>,
    discoveryType: Option<DiscoveryType>,
    identity: Option<string>)

  // JavaScript truthiness of the optional members: the empty string and the number 0 are
  // falsy; a connection object and a discovery type string are truthy whenever present.
  predicate HostGiven(h: Option<string>) { h.Some? && h.value != "" }
  predicate PortGiven(p: Option<int>) { p.Some? && p.value != 0 }
  predicate IdentityGiven(i: Option<string>) { i.Some? && i.value != "" }

  /** The set of strings in a list. */
  function Elems(ts: seq<string>): set<string>
  {
    set t | t in ts
  }

  /** The options `update` receives from the local-discovery handler: host and port only. */
  function AddressOptions(host: string, port: int): PeerOptions
  {
    PeerOptions(None, [], Some(host), Some(port), None, None)
  }

  /** A new Peer; the source reads `connection.on` in the constructor, so a connection
      must be given. */
  function NewPeer(opts: PeerOptions): (p: PeerValue)
    requires opts.connection.Some?
    ensures forall t :: t in p.topics <==> t in opts.topics
    ensures p.connection == opts.connection.value
    ensures p.host == opts.host && p.port == opts.port
    ensures p.discoveryType == opts.discoveryType && p.identity == opts.identity
  {
    PeerValue(Elems(opts.topics), opts.connection.value, opts.host, opts.port, opts.discoveryType, opts.identity)
  }

  /** `update`: topics are united in; every other field is overwritten only by a truthy
      option and is otherwise left as it was. */
  function UpdatePeer(p: PeerValue, opts: PeerOptions): (r: PeerValue)
    ensures forall t :: t in r.topics <==> t in p.topics || t in opts.topics
    ensures opts.connection.Some? ==> r.connection == opts.connection.value
    ensures opts.connection.None? ==> r.connection == p.connection
    ensures r.host == if HostGiven(opts.host) then opts.host else p.host
    ensures r.port == if PortGiven(opts.port) then opts.port else p.port
    ensures r.discoveryType == if opts.discoveryType.Some? then opts.discoveryType else p.discoveryType
    ensures r.identity == if IdentityGiven(opts.identity) then opts.identity else p.identity
  {
    PeerValue(
      if |opts.topics| > 0 then p.topics + Elems(opts.topics) else p.topics,
      if opts.connection.Some? then opts.connection.value else p.connection,
      if HostGiven(opts.host) then opts.host else p.host,
      if PortGiven(opts.port) then opts.port else p.port,
      if opts.discoveryType.Some? then opts.discoveryType else p.discoveryType,
      if IdentityGiven(opts.identity) then opts.identity else p.identity)
  }

  /** Applying the same options twice is applying them once. */
  lemma UpdateIdempotent(p: PeerValue, opts: PeerOptions)
    ensures UpdatePeer(UpdatePeer(p, opts), opts) == UpdatePeer(p, opts)
  {
  }

  /** Falsy options change nothing: in particular `update` never clears a field. */
  lemma UpdateWithFalsyOptionsIsIdentity(p: PeerValue, opts: PeerOptions)
    requires opts.connection.None? && opts.topics == [] && !HostGiven(opts.host)
    requires !PortGiven(opts.port) && opts.discoveryType.None? && !IdentityGiven(opts.identity)
    ensures UpdatePeer(p, opts) == p
  {
  }

  /** The address update from the local-discovery handler never touches the connection,
      the identity, the discovery type or the topics. */
  lemma AddressUpdateKeepsConnection(p: PeerValue, host: string, port: int)
    ensures var r := UpdatePeer(p, AddressOptions(host, port));
      && r.connection == p.connection && r.identity == p.identity
      && r.discoveryType == p.discoveryType && r.topics == p.topics
      && (host != "" ==> r.host == Some(host)) && (port != 0 ==> r.port == Some(port))
  {
  }

  class Peer {
    var topics: set<string>
    var connection: Conn
    var host: Option<string>
    var port: Option<int>
    var discoveryType: Option<DiscoveryType>
    var identity: Option<string>

    function Value(): PeerValue
      reads this
    {
      PeerValue(topics, connection, host, port, discoveryType, identity)
    }

    constructor (opts: PeerOptions)
      requires opts.connection.Some?
      ensures Value() == NewPeer(opts)
    {
      topics := {};
      connection := opts.connection.value;
      host := opts.host;
      port := opts.port;
      discoveryType := opts.discoveryType;
      identity := opts.identity;
      new;
      AddTopics(opts.topics);
    }

    /** The `topics` getter. */
    function Topics(): set<string>
      reads this
    {
      topics
    }

    method Update(opts: PeerOptions)
      modifies this
      ensures Value() == UpdatePeer(old(Value()), opts)
    {
      if |opts.topics| > 0 {
        AddTopics(opts.topics);
      }
      if opts.connection.Some? {
        connection := opts.connection.value;
      }
      if HostGiven(opts.host) {
        host := opts.host;
      }
      if PortGiven(opts.port) {
        port := opts.port;
      }
      if opts.discoveryType.Some? {
        discoveryType := opts.discoveryType;
      }
      if IdentityGiven(opts.identity) {
        identity := opts.identity;
      }
    }

    method AddTopic(topic: string)
      modifies this
      ensures Value() == old(Value()).(topics := old(topics) + {topic})
    {
      topics := topics + {topic};
    }

    method AddTopics(ts: seq<string>)
      modifies this
      ensures Value() == old(Value()).(topics := old(topics) + Elems(ts))
    {
      var i := 0;
      while i < |ts|
        invariant 0 <= i <= |ts|
        invariant Value() == old(Value()).(topics := old(topics) + Elems(ts[..i]))
      {
        assert ts[..i + 1] == ts[..i] + [ts[i]];
        topics := topics + {ts[i]};
        i := i + 1;
      }
      assert ts[..i] == ts;
    }

    method RemoveTopic(topic: string)
      modifies this
      ensures Value() == old(Value()).(topics := old(topics) - {topic})
    {
      topics := topics - {topic};
    }
  }
}
