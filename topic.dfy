/** A joined (or passively seen) topic: its canonical string and one status lane per
    transport, the rendezvous lane `dht` and the local-network lane `mdns`. */
module Topics {
  import opened Common

  datatype LaneStatus = Closed | Joining | Joined | Leaving | Deactivated

  /** What `status()` reports. */
  datatype StatusPair = StatusPair(dht: LaneStatus, mdns: LaneStatus)

  /** The argument of `updateStatus`; `None` stands for a missing or null member. */
  datatype StatusUpdate = StatusUpdate(dht: Option<LaneStatus>, mdns: Option<LaneStatus>)

  /** The observable state of a Topic. `hasDht`/`hasMdns` say whether the lane holds a
      transport handle (the `dht` and `mdns` members of the source object are truthy). */
  datatype TopicValue = TopicValue(
    name: string,
    hasDht: bool,
    hasMdns: bool,
    dhtStatus: LaneStatus,
    mdnsStatus: LaneStatus)

  /** A lane without a transport handle is deactivated. */
  predicate LanesConsistent(t: TopicValue)
  {
    && (!t.hasDht ==> t.dhtStatus == Deactivated)
    && (!t.hasMdns ==> t.mdnsStatus == Deactivated)
  }

  function StatusOf(t: TopicValue): StatusPair
  {
    StatusPair(t.dhtStatus, t.mdnsStatus)
  }

  /** A freshly constructed Topic: a lane starts `closed` when its handle is present and
      `deactivated` when it is absent. */
  function NewTopic(name: string, dht: bool, mdns: bool): (t: TopicValue)
    ensures t.name == name && t.hasDht == dht && t.hasMdns == mdns
    ensures t.dhtStatus == (if dht then Closed else Deactivated)
    ensures t.mdnsStatus == (if mdns then Closed else Deactivated)
    ensures LanesConsistent(t)
  {
    TopicValue(name, dht, mdns, if dht then Closed else Deactivated, if mdns then Closed else Deactivated)
  }

  /** `updateStatus`: a lane takes the supplied value only when it holds a handle and the
      value is given; every other lane, the name and the handles stay as they were. */
  function ApplyStatus(t: TopicValue, u: StatusUpdate): (r: TopicValue)
    ensures r.name == t.name && r.hasDht == t.hasDht && r.hasMdns == t.hasMdns
    ensures t.hasDht && u.dht.Some? ==> r.dhtStatus == u.dht.value
    ensures r.dhtStatus != t.dhtStatus ==> t.hasDht && u.dht == Some(r.dhtStatus)
    ensures t.hasMdns && u.mdns.Some? ==> r.mdnsStatus == u.mdns.value
    ensures r.mdnsStatus != t.mdnsStatus ==> t.hasMdns && u.mdns == Some(r.mdnsStatus)
    ensures LanesConsistent(t) ==> LanesConsistent(r)
    ensures !t.hasDht && LanesConsistent(t) ==> r.dhtStatus == Deactivated
    ensures !t.hasMdns && LanesConsistent(t) ==> r.mdnsStatus == Deactivated
  {
    t.(dhtStatus := if t.hasDht && u.dht.Some? then u.dht.value else t.dhtStatus,
       mdnsStatus := if t.hasMdns && u.mdns.Some? then u.mdns.value else t.mdnsStatus)
  }

  /** Updating twice with the same value is updating once. */
  lemma ApplyStatusIdempotent(t: TopicValue, u: StatusUpdate)
    ensures ApplyStatus(ApplyStatus(t, u), u) == ApplyStatus(t, u)
  {
  }

  /** A deactivated lane without a handle is untouched by any sequence of updates. */
  lemma {:induction false} DeactivatedLaneStays(t: TopicValue, us: seq<StatusUpdate>)
    requires LanesConsistent(t)
    ensures var r := ApplyAll(t, us);
      && (!t.hasDht ==> r.dhtStatus == Deactivated)
      && (!t.hasMdns ==> r.mdnsStatus == Deactivated)
      && r.hasDht == t.hasDht && r.hasMdns == t.hasMdns && LanesConsistent(r)
    decreases |us|
  {
    if us != [] {
      DeactivatedLaneStays(ApplyStatus(t, us[0]), us[1..]);
    }
  }

  /** The lanes after a sequence of `updateStatus` calls. */
  function ApplyAll(t: TopicValue, us: seq<StatusUpdate>): TopicValue
    decreases |us|
  {
    if us == [] then t else ApplyAll(ApplyStatus(t, us[0]), us[1..])
  }

  class Topic {
    const name: string
    var hasDht: bool
    var hasMdns: bool
    var dhtStatus: LaneStatus
    var mdnsStatus: LaneStatus

    function Value(): TopicValue
      reads this
    {
      TopicValue(name, hasDht, hasMdns, dhtStatus, mdnsStatus)
    }

    ghost predicate Valid()
      reads this
    {
      LanesConsistent(Value())
    }

    constructor (name: string, dht: bool, mdns: bool)
      ensures Valid() && Value() == NewTopic(name, dht, mdns)
    {
      this.name := name;
      hasDht := dht;
      hasMdns := mdns;
      dhtStatus := if dht then Closed else Deactivated;
      mdnsStatus := if mdns then Closed else Deactivated;
    }

    /** `status()`: the two lanes; a lane without a handle reports `deactivated`. */
    function Status(): (p: StatusPair)
      reads this
      ensures p == StatusOf(Value())
      ensures Valid() ==> (!hasDht ==> p.dht == Deactivated) && (!hasMdns ==> p.mdns == Deactivated)
    {
      StatusPair(dhtStatus, mdnsStatus)
    }

    /** `toString()`: the canonical topic string, used as the registry key. */
    function ToString(): string
    {
      name
    }

    method UpdateStatus(u: StatusUpdate)
      modifies this
      ensures Value() == ApplyStatus(old(Value()), u)
      ensures old(Valid()) ==> Valid()
    {
      if hasDht && u.dht.Some? {
        dhtStatus := u.dht.value;
      }
      if hasMdns && u.mdns.Some? {
        mdnsStatus := u.mdns.value;
      }
    }
  }
}
