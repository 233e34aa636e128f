/** Properties of arbitrary interleavings of handler invocations: the registry invariant,
    the self-connection guard, the stability of a registered peer (duplicates never
    replace its connection and never announce another one), and one `connection` event
    per registration. Then four concrete runs: a lone join, a connect/close cycle, a
    rendezvous duplicate, and a repeated dial `connect`. */
module Traces {
  import opened Common
  import opened Peers
  import opened Topics
  import opened Registry

  /** No `connection` event for identity `id` among the events from index `from` on. */
  ghost predicate NoConnectionFor(events: seq<Event>, from: nat, id: string)
  {
    forall i :: from <= i < |events| ==> !(events[i].Connection? && events[i].peer.identity == Some(id))
  }

  /** Every `connection` event for identity `id` from index `from` on carries `conn`. */
  ghost predicate AnnouncesOnly(events: seq<Event>, from: nat, id: string, conn: Conn)
  {
    forall i :: from <= i < |events| && events[i].Connection? && events[i].peer.identity == Some(id) ==>
      events[i].conn == conn
  }

  /** A hypothesis about the rendezvous transport, not a check of the core: it does not
      hand the core a connection from the local identity. The rendezvous `connection`
      handler has no self guard of its own, unlike the inbound one. */
  predicate TransportSane(c: Config, st: Step)
  {
    st.DhtConnected? ==> st.remote != c.self
  }

  /** The only step that removes `id` from the registry. */
  predicate Removes(st: Step, id: string)
  {
    st.PeerClosed? && st.identity == id
  }

  lemma StepPreservesInv(c: Config, s: State, st: Step)
    requires Inv(s)
    ensures Inv(Apply(c, s, st))
  {
  }

  lemma StepAppends(c: Config, s: State, st: Step)
    ensures Appends(s, Apply(c, s, st))
  {
  }

  /** Every interleaving keeps peers keyed by identity and topics keyed by name. */
  lemma {:induction false} RunPreservesInv(c: Config, s: State, steps: seq<Step>)
    requires Inv(s)
    ensures Inv(Run(c, s, steps))
    decreases |steps|
  {
    if steps != [] {
      StepPreservesInv(c, s, steps[0]);
      RunPreservesInv(c, Apply(c, s, steps[0]), steps[1..]);
    }
  }

  /** Every interleaving only appends to the event and action logs. */
  lemma {:induction false} RunAppends(c: Config, s: State, steps: seq<Step>)
    ensures Appends(s, Run(c, s, steps))
    decreases |steps|
  {
    if steps != [] {
      var s1 := Apply(c, s, steps[0]);
      StepAppends(c, s, steps[0]);
      RunAppends(c, s1, steps[1..]);
      PrefixTransitive(s.events, s1.events, Run(c, s1, steps[1..]).events);
      PrefixTransitive(s.actions, s1.actions, Run(c, s1, steps[1..]).actions);
    }
  }

  lemma PrefixTransitive<T>(a: seq<T>, b: seq<T>, d: seq<T>)
    requires a <= b && b <= d
    ensures a <= d
  {
    assert b == d[..|b|];
    assert a == b[..|a|];
  }

  lemma StepSelfNotRegistered(c: Config, s: State, st: Step)
    requires c.self !in s.peers && TransportSane(c, st)
    ensures c.self !in Apply(c, s, st).peers
  {
  }

  lemma StepSelfNotAnnounced(c: Config, s: State, st: Step)
    requires Inv(s) && c.self !in s.peers && TransportSane(c, st)
    ensures NoConnectionFor(Apply(c, s, st).events, |s.events|, c.self)
  {
  }

  /** Self-connection guard over any interleaving in which the rendezvous transport never
      delivers the local identity: the local identity is never registered and never
      announced with a `connection` event. */
  lemma {:induction false} SelfNeverConnected(c: Config, s: State, steps: seq<Step>)
    requires Inv(s) && c.self !in s.peers
    requires forall i :: 0 <= i < |steps| ==> TransportSane(c, steps[i])
    ensures var r := Run(c, s, steps);
      c.self !in r.peers && NoConnectionFor(r.events, |s.events|, c.self)
    decreases |steps|
  {
    if steps != [] {
      var s1 := Apply(c, s, steps[0]);
      StepSelfNotRegistered(c, s, steps[0]);
      StepSelfNotAnnounced(c, s, steps[0]);
      StepPreservesInv(c, s, steps[0]);
      StepAppends(c, s, steps[0]);
      SelfNeverConnected(c, s1, steps[1..]);
      var r := Run(c, s1, steps[1..]);
      RunAppends(c, s1, steps[1..]);
      forall i | |s.events| <= i < |r.events|
        ensures !(r.events[i].Connection? && r.events[i].peer.identity == Some(c.self))
      {
        if i < |s1.events| {
          assert r.events[i] == s1.events[i];
        }
      }
    }
  }

  lemma StepKeepsConnection(c: Config, s: State, st: Step, id: string)
    requires id in s.peers && !Removes(st, id)
    ensures var r := Apply(c, s, st);
      id in r.peers && r.peers[id].connection == s.peers[id].connection
  {
  }

  lemma StepAnnouncesOnly(c: Config, s: State, st: Step, id: string)
    requires Inv(s) && id in s.peers
    ensures AnnouncesOnly(Apply(c, s, st).events, |s.events|, id, s.peers[id].connection)
  {
  }

  /** Stability: until its own `close` removes it, a registered identity stays registered
      with the same connection handle, and no `connection` event announces it with any
      other handle, whatever duplicates the two transports deliver meanwhile. */
  lemma {:induction false} RegisteredPeerIsStable(c: Config, s: State, steps: seq<Step>, id: string)
    requires Inv(s) && id in s.peers
    requires forall i :: 0 <= i < |steps| ==> !Removes(steps[i], id)
    ensures var r := Run(c, s, steps);
      && id in r.peers && r.peers[id].connection == s.peers[id].connection
      && AnnouncesOnly(r.events, |s.events|, id, s.peers[id].connection)
    decreases |steps|
  {
    if steps != [] {
      var s1 := Apply(c, s, steps[0]);
      StepKeepsConnection(c, s, steps[0], id);
      StepAnnouncesOnly(c, s, steps[0], id);
      StepPreservesInv(c, s, steps[0]);
      StepAppends(c, s, steps[0]);
      RegisteredPeerIsStable(c, s1, steps[1..], id);
      var r := Run(c, s1, steps[1..]);
      RunAppends(c, s1, steps[1..]);
      forall i | |s.events| <= i < |r.events| && r.events[i].Connection? && r.events[i].peer.identity == Some(id)
        ensures r.events[i].conn == s.peers[id].connection
      {
        if i < |s1.events| {
          assert r.events[i] == s1.events[i];
        }
      }
    }
  }

  // ---------------------------------------------------------------------------
  // One `connection` event per generation

  /** The number of `connection` events for identity `id`. */
  ghost function ConnectionsFor(events: seq<Event>, id: string): nat
    decreases |events|
  {
    if events == [] then 0
    else (if events[0].Connection? && events[0].peer.identity == Some(id) then 1 else 0) + ConnectionsFor(events[1..], id)
  }

  lemma {:induction false} ConnectionsForAppend(a: seq<Event>, b: seq<Event>, id: string)
    ensures ConnectionsFor(a + b, id) == ConnectionsFor(a, id) + ConnectionsFor(b, id)
    decreases |a|
  {
    if a == [] {
      assert a + b == b;
    } else {
      assert (a + b)[0] == a[0];
      assert (a + b)[1..] == a[1..] + b;
      ConnectionsForAppend(a[1..], b, id);
    }
  }

  lemma {:induction false} NoConnectionsCounted(events: seq<Event>, id: string)
    requires NoConnectionFor(events, 0, id)
    ensures ConnectionsFor(events, id) == 0
    decreases |events|
  {
    if events != [] {
      assert forall i :: 0 <= i < |events[1..]| ==> events[1..][i] == events[i + 1];
      NoConnectionsCounted(events[1..], id);
    }
  }

  /** How many `connection` events for `id` one step emits: an inbound (not from ourselves)
      or rendezvous connection that registers `id`, or the `connect` of the dialled
      connection registered for `id`. */
  function StepAnnounces(c: Config, s: State, st: Step, id: string): nat
  {
    if id !in s.peers then
      if (st.InboundConnected? && st.remote == id && id != c.self) || (st.DhtConnected? && st.remote == id) then 1 else 0
    else if st == DialConnected(id, s.peers[id].connection) then 1 else 0
  }

  /** The events one step appends. */
  function Emitted(c: Config, s: State, st: Step): seq<Event>
  {
    var r := Apply(c, s, st);
    if |s.events| <= |r.events| then r.events[|s.events|..] else []
  }

  lemma InboundAnnounces(c: Config, s: State, st: Step, id: string)
    requires Inv(s) && st.InboundConnected?
    ensures ConnectionsFor(Emitted(c, s, st), id) == StepAnnounces(c, s, st, id)
  {
    var d := Emitted(c, s, st);
    if st.remote != c.self && st.remote !in s.peers {
      assert d == [d[0]] && d[0].Connection? && d[0].peer.identity == Some(st.remote);
      assert d[1..] == [];
    } else {
      assert d == [];
    }
  }

  lemma DhtAnnounces(c: Config, s: State, st: Step, id: string)
    requires Inv(s) && st.DhtConnected?
    ensures ConnectionsFor(Emitted(c, s, st), id) == StepAnnounces(c, s, st, id)
  {
    var d := Emitted(c, s, st);
    if st.remote !in s.peers {
      assert d == [d[0]] && d[0].Connection? && d[0].peer.identity == Some(st.remote);
      assert d[1..] == [];
    } else {
      assert d == [];
    }
  }

  lemma DialConnectAnnounces(c: Config, s: State, st: Step, id: string)
    requires Inv(s) && st.DialConnected?
    ensures ConnectionsFor(Emitted(c, s, st), id) == StepAnnounces(c, s, st, id)
  {
    var d := Emitted(c, s, st);
    if st.identity in s.peers && s.peers[st.identity].connection == st.conn {
      assert d == [d[0]] && d[0].Connection? && d[0].peer.identity == Some(st.identity);
      assert d[1..] == [];
    } else {
      assert d == [];
    }
  }

  /** Every other step emits no `connection` event at all. */
  lemma OtherStepsAnnounceNothing(c: Config, s: State, st: Step, id: string)
    requires !st.InboundConnected? && !st.DhtConnected? && !st.DialConnected?
    ensures ConnectionsFor(Emitted(c, s, st), id) == 0
  {
    StepAppends(c, s, st);
    NoConnectionsCounted(Emitted(c, s, st), id);
  }

  lemma StepConnectionsFor(c: Config, s: State, st: Step, id: string)
    requires Inv(s)
    ensures ConnectionsFor(Apply(c, s, st).events, id) == ConnectionsFor(s.events, id) + StepAnnounces(c, s, st, id)
  {
    StepAppends(c, s, st);
    var d := Emitted(c, s, st);
    assert Apply(c, s, st).events == s.events + d;
    ConnectionsForAppend(s.events, d, id);
    if st.InboundConnected? {
      InboundAnnounces(c, s, st, id);
    } else if st.DhtConnected? {
      DhtAnnounces(c, s, st, id);
    } else if st.DialConnected? {
      DialConnectAnnounces(c, s, st, id);
    } else {
      OtherStepsAnnounceNothing(c, s, st, id);
    }
  }

  /** The dialled connection `conn` of `id` is still to connect. */
  ghost predicate DialConnectPending(steps: seq<Step>, id: string, conn: Conn)
  {
    exists j :: 0 <= j < |steps| && steps[j] == DialConnected(id, conn)
  }

  /** A hypothesis about the transports, not a check of the core: a dialled connection of
      `id` connects at most once (the same `connect` of `id` and handle never repeats). */
  ghost predicate DialConnectsOnce(steps: seq<Step>, id: string)
  {
    forall i, j :: 0 <= i < j < |steps| && steps[i].DialConnected? && steps[i].identity == id ==>
      steps[j] != steps[i]
  }

  /** A hypothesis about the transports: a dialled connection of `id` is a connection of its
      own, never one that reached the core as an inbound or rendezvous connection of `id`. */
  ghost predicate DialHandlesDistinct(steps: seq<Step>, id: string)
  {
    forall i, j ::
      (0 <= i < |steps| && 0 <= j < |steps| && steps[i].DialConnected? && steps[i].identity == id &&
       (steps[j].InboundConnected? || steps[j].DhtConnected?) && steps[j].remote == id) ==>
      steps[i].conn != steps[j].conn
  }

  /** How many more `connection` events for `id` the steps may cause from `s`: one when
      `id` is not registered, one when its registered connection is a dial still to
      connect, none otherwise. */
  ghost function Budget(s: State, steps: seq<Step>, id: string): nat
  {
    if id !in s.peers then 1
    else if DialConnectPending(steps, id, s.peers[id].connection) then 1 else 0
  }

  lemma {:induction false} ConnectionsWithinBudget(c: Config, s: State, steps: seq<Step>, id: string)
    requires Inv(s)
    requires forall i :: 0 <= i < |steps| ==> !Removes(steps[i], id)
    requires DialConnectsOnce(steps, id) && DialHandlesDistinct(steps, id)
    ensures ConnectionsFor(Run(c, s, steps).events, id) <= ConnectionsFor(s.events, id) + Budget(s, steps, id)
    decreases |steps|
  {
    if steps != [] {
      var st, tail := steps[0], steps[1..];
      var s1 := Apply(c, s, st);
      StepConnectionsFor(c, s, st, id);
      StepPreservesInv(c, s, st);
      assert forall i :: 0 <= i < |tail| ==> tail[i] == steps[i + 1];
      ConnectionsWithinBudget(c, s1, tail, id);
      RunUnfold(c, s, steps);
      if id !in s.peers {
        if StepAnnounces(c, s, st, id) == 1 {
          assert id in s1.peers && s1.peers[id].connection == st.conn;
          assert !DialConnectPending(tail, id, st.conn);
        }
      } else {
        StepKeepsConnection(c, s, st, id);
        if st == DialConnected(id, s.peers[id].connection) {
          assert DialConnectPending(steps, id, s.peers[id].connection) by {
            assert steps[0] == st;
          }
          assert !DialConnectPending(tail, id, s.peers[id].connection);
        } else if DialConnectPending(tail, id, s.peers[id].connection) {
          var j :| 0 <= j < |tail| && tail[j] == DialConnected(id, s.peers[id].connection);
          assert steps[j + 1] == tail[j];
        }
      }
    }
  }

  /** Uniqueness: from a state where `id` is not registered, until the peer's own `close`
      removes it, at most one `connection` event announces `id`, however the transports
      interleave discoveries and duplicates, provided each dialled connection connects at
      most once and is distinct from the connections the other transports deliver. */
  lemma OneConnectionPerGeneration(c: Config, s: State, steps: seq<Step>, id: string)
    requires Inv(s) && id !in s.peers
    requires forall i :: 0 <= i < |steps| ==> !Removes(steps[i], id)
    requires DialConnectsOnce(steps, id) && DialHandlesDistinct(steps, id)
    ensures ConnectionsFor(Run(c, s, steps).events, id) <= ConnectionsFor(s.events, id) + 1
  {
    ConnectionsWithinBudget(c, s, steps, id);
  }

  /** The run of `steps` is the run of its tail from the state its first step leaves. */
  lemma RunUnfold(c: Config, s: State, steps: seq<Step>)
    requires steps != []
    ensures Run(c, s, steps) == Run(c, Apply(c, s, steps[0]), steps[1..])
  {
  }

  /** A `join` on a process with both transports and no peers: the snapshots
      {dht: joining, mdns: joining} and {dht: joined, mdns: joining}, then the local
      transport's echo of our own announcement makes the local lane `joined`; no
      `connection` event, no peer. */
  lemma ScenarioLoneJoin(c: Config, name: string, host: string, port: int, conn: Conn)
    requires c.mdns && c.dht
    ensures var r := Run(c, Empty(), [JoinCalled(name, false, false), ServiceFound(name, c.self, host, port, conn)]);
      && r.events == [Status(name, Joining, Joining), Status(name, Joined, Joining), Status(name, Joined, Joined)]
      && r.peers == map[] && r.actions == []
  {
    var steps := [JoinCalled(name, false, false), ServiceFound(name, c.self, host, port, conn)];
    var s1 := Apply(c, Empty(), steps[0]);
    assert s1 == State(map[], map[name := TopicValue(name, true, true, Joined, Joining)],
                       [Status(name, Joining, Joining), Status(name, Joined, Joining)], []);
    var s2 := Apply(c, s1, steps[1]);
    assert s2.events == s1.events + [Status(name, Joined, Joined)];
    RunUnfold(c, Empty(), steps);
    RunUnfold(c, s1, steps[1..]);
    assert steps[1..][1..] == [];
  }

  /** An inbound connection from an unknown identity, then its close, then the peer's own
      close: exactly one `connection` and one `connectionClosed` event, and the peer is
      gone. */
  lemma ScenarioConnectClose(c: Config, remote: string, conn: Conn, host: string, port: int)
    requires remote != c.self
    ensures var p := PeerValue({}, conn, Some(host), Some(port), Some(Mdns), Some(remote));
      var r := Run(c, Empty(), [InboundConnected(remote, conn, host, port), InboundClosed(remote, conn), PeerClosed(remote)]);
      && r.events == [Connection(conn, p), ConnectionClosed(p)]
      && r.actions == [DestroyConnection(conn)]
      && r.peers == map[]
  {
    var p := PeerValue({}, conn, Some(host), Some(port), Some(Mdns), Some(remote));
    var steps := [InboundConnected(remote, conn, host, port), InboundClosed(remote, conn), PeerClosed(remote)];
    var s1 := Apply(c, Empty(), steps[0]);
    assert s1 == State(map[remote := p], map[], [Connection(conn, p)], []);
    var s2 := Apply(c, s1, steps[1]);
    assert s2 == s1.(events := [Connection(conn, p), ConnectionClosed(p)], actions := [DestroyConnection(conn)]);
    var s3 := Apply(c, s2, steps[2]);
    assert s3 == s2.(peers := map[]);
    RunUnfold(c, Empty(), steps);
    RunUnfold(c, s1, steps[1..]);
    RunUnfold(c, s2, steps[1..][1..]);
    assert steps[1..][1..][1..] == [];
  }

  /** A live local-network peer later also reached over the rendezvous transport: the new
      connection is destroyed, no second `connection` event fires, the original connection
      stays, and the topic the rendezvous side announces joins the peer's set. */
  lemma ScenarioDuplicateRendezvous(c: Config, s: State, id: string, conn: Conn, host: string, port: int, topic: string)
    requires id in s.peers && conn != s.peers[id].connection
    ensures var r := Run(c, s, [DhtConnected(id, conn, host, port, []), DhtTopicAnnounced(id, topic)]);
      && r.events == s.events
      && r.actions == s.actions + [DestroyConnection(conn)]
      && id in r.peers && r.peers[id].connection == s.peers[id].connection
      && r.peers[id].topics == s.peers[id].topics + {topic}
  {
    var steps := [DhtConnected(id, conn, host, port, []), DhtTopicAnnounced(id, topic)];
    var s1 := Apply(c, s, steps[0]);
    assert s1 == s.(actions := s.actions + [DestroyConnection(conn)]);
    RunUnfold(c, s, steps);
    RunUnfold(c, s1, steps[1..]);
    assert steps[1..][1..] == [];
  }

  /** Why `OneConnectionPerGeneration` needs its dial hypothesis: the dial `connect` handler
      has no memory of having fired, so a transport that delivered it twice would see the
      same peer announced twice. */
  lemma ScenarioRepeatedDialConnect(c: Config, s: State, id: string)
    requires id in s.peers
    ensures var p := s.peers[id];
      var r := Run(c, s, [DialConnected(id, p.connection), DialConnected(id, p.connection)]);
      && r.events == s.events + [Connection(p.connection, p), Connection(p.connection, p)]
      && r.peers == s.peers
  {
    var p := s.peers[id];
    var steps := [DialConnected(id, p.connection), DialConnected(id, p.connection)];
    var s1 := Apply(c, s, steps[0]);
    assert s1 == s.(events := s.events + [Connection(p.connection, p)]);
    RunUnfold(c, s, steps);
    RunUnfold(c, s1, steps[1..]);
    assert steps[1..][1..] == [];
  }
}
