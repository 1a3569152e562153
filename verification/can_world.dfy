/** The process-wide CAN state (g2core/can_bus.cpp): the arena of nodes, the
    `canNodes` registry, the tick scheduler's registrations and the machine's
    safety interlock list; the construction and destruction of nodes and
    endpoints; frame reception; the periodic tick; and the interlock aggregate. */
module CanWorld {
  import opened CInts
  import opened CanFrame
  import opened CanNode
  import Gpio
  import Registry

  /** An entry of `cm.saftey_interlock_list`, named by its owner. */
  datatype InterlockEntry =
    | InputEntry(input: nat)           // a digital input's `safteyInterlockEntry`
    | HeartbeatEntry(node: NodeRef)    // a node's `heartbeatInterlock`
    | EndpointEntry(endpoint: EndpointRef)  // an endpoint's `initInterlock`

  /** `nodes` is the arena (a destroyed node keeps its slot with `alive` false);
      `ticks` are the nodes whose heartbeat event is registered with the tick scheduler. */
  datatype World = World(
    nodes: seq<Node>,
    canNodes: seq<NodeRef>,
    ticks: seq<NodeRef>,
    interlocks: seq<InterlockEntry>)

  /** A heartbeat entry names an arena slot. */
  ghost predicate InRange(nodes: seq<Node>, e: InterlockEntry)
  {
    e.HeartbeatEntry? ==> e.node < |nodes|
  }

  ghost predicate EntriesInRange(nodes: seq<Node>, l: seq<InterlockEntry>)
  {
    forall k :: 0 <= k < |l| ==> InRange(nodes, l[k])
  }

  /** Every handle names an arena slot and no scheduler or node registry holds
      a handle twice. */
  ghost predicate Valid(w: World)
  {
    && (forall k :: 0 <= k < |w.canNodes| ==> w.canNodes[k] < |w.nodes|)
    && (forall k :: 0 <= k < |w.ticks| ==> w.ticks[k] < |w.nodes|)
    && EntriesInRange(w.nodes, w.interlocks)
    && Registry.Distinct(w.canNodes)
    && Registry.Distinct(w.ticks)
  }

  /** The value an interlock entry points at. An input's entry points at its
      `trueBool` and an endpoint's at the global `canTrueBool`; both are
      initialised true and never assigned. A node's entry points at its
      heartbeat flag. */
  function Vote(nodes: seq<Node>, e: InterlockEntry): bool
    requires InRange(nodes, e)
  {
    match e
    case InputEntry(_) => true
    case EndpointEntry(_) => true
    case HeartbeatEntry(n) => nodes[n].heartbeatFlag
  }

  /** Every entry of `l` votes true. */
  ghost predicate AllTrue(nodes: seq<Node>, l: seq<InterlockEntry>)
    requires EntriesInRange(nodes, l)
  {
    forall k :: 0 <= k < |l| ==> Vote(nodes, l[k])
  }

  /** The aggregate as this model reads it: the machine may move when every
      entry reads true. The code that samples the list is not part of this
      model, so this meaning is assumed; `Interlocked` is the opposite reading. */
  ghost predicate Safe(w: World)
    requires Valid(w)
  {
    AllTrue(w.nodes, w.interlocks)
  }

  /** Some entry of `l` votes true. */
  ghost predicate AnyTrue(nodes: seq<Node>, l: seq<InterlockEntry>)
    requires EntriesInRange(nodes, l)
  {
    exists k :: 0 <= k < |l| && Vote(nodes, l[k])
  }

  /** The opposite reading of the list: an entry that reads true holds the
      machine, and the machine is held while any entry reads true. */
  ghost predicate Interlocked(w: World)
    requires Valid(w)
  {
    AnyTrue(w.nodes, w.interlocks)
  }

  /** Only heartbeat entries can make the aggregate unsafe. */
  lemma SafeIffHeartbeats(w: World)
    requires Valid(w)
    ensures Safe(w) <==> forall k :: 0 <= k < |w.interlocks| && w.interlocks[k].HeartbeatEntry? ==>
                                       w.nodes[w.interlocks[k].node].heartbeatFlag
  {
  }

  /** Inserting an entry that votes true changes no verdict. */
  lemma AddTrueEntry(nodes: seq<Node>, l: seq<InterlockEntry>, e: InterlockEntry, at: nat)
    requires EntriesInRange(nodes, l) && InRange(nodes, e) && Vote(nodes, e) && at <= |l|
    ensures EntriesInRange(nodes, Registry.Add(l, e, at))
    ensures AllTrue(nodes, Registry.Add(l, e, at)) <==> AllTrue(nodes, l)
  {
    var r := Registry.Add(l, e, at);
    assert forall k :: 0 <= k < |r| ==> r[k] == e || (k < at && r[k] == l[k]) || (k > at && r[k] == l[k - 1]);
    if AllTrue(nodes, r) {
      forall k | 0 <= k < |l| ensures Vote(nodes, l[k]) {
        if k < at { assert r[k] == l[k]; } else { assert r[k + 1] == l[k]; }
      }
    }
  }

  /** Removing an entry keeps the others in range and cannot make a safe list unsafe. */
  lemma RemoveEntry(nodes: seq<Node>, l: seq<InterlockEntry>, e: InterlockEntry)
    requires EntriesInRange(nodes, l)
    ensures EntriesInRange(nodes, Registry.Remove(l, e))
    ensures AllTrue(nodes, l) ==> AllTrue(nodes, Registry.Remove(l, e))
  {
    var r := Registry.Remove(l, e);
    Registry.RemoveMembers(l, e);
    forall k | 0 <= k < |r| ensures InRange(nodes, r[k]) && (AllTrue(nodes, l) ==> Vote(nodes, r[k])) {
      var j :| 0 <= j < |l| && l[j] == r[k];
    }
  }

  /** The verdicts depend only on the heartbeat flags of the slots the list names. */
  lemma SameFlags(nodes: seq<Node>, nodes': seq<Node>, l: seq<InterlockEntry>)
    requires EntriesInRange(nodes, l) && |nodes| <= |nodes'|
    requires forall i :: 0 <= i < |nodes| ==> nodes'[i].heartbeatFlag == nodes[i].heartbeatFlag
    ensures EntriesInRange(nodes', l)
    ensures AllTrue(nodes', l) <==> AllTrue(nodes, l)
  {
    assert forall k :: 0 <= k < |l| ==> Vote(nodes', l[k]) == Vote(nodes, l[k]);
  }

  // ---------------------------------------------------------------------------
  // Nodes
  // ---------------------------------------------------------------------------

  /** The world after the `CanNode` constructor. */
  function NodeAdded(w: World, nodeId: int, atInterlock: nat, atNodes: nat): World
    requires atInterlock <= |w.interlocks| && atNodes <= |w.canNodes|
  {
    var n := |w.nodes|;
    World(w.nodes + [NewNode(nodeId)],
          Registry.Add(w.canNodes, n, atNodes),
          Registry.Add(w.ticks, n, |w.ticks|),
          Registry.Add(w.interlocks, HeartbeatEntry(n), atInterlock))
  }

  /** The new node's handle goes into registries that did not hold it. */
  lemma NodeAddedValid(w: World, nodeId: int, atInterlock: nat, atNodes: nat)
    requires Valid(w)
    requires atInterlock <= |w.interlocks| && atNodes <= |w.canNodes|
    ensures Valid(NodeAdded(w, nodeId, atInterlock, atNodes))
  {
    var r := NodeAdded(w, nodeId, atInterlock, atNodes);
    var n := |w.nodes|;
    assert n !in w.canNodes && n !in w.ticks;
    Registry.AddDistinct(w.canNodes, n, atNodes);
    Registry.AddDistinct(w.ticks, n, |w.ticks|);
    forall k | 0 <= k < |r.canNodes| ensures r.canNodes[k] < |r.nodes| {
      if k < atNodes { assert r.canNodes[k] == w.canNodes[k]; }
      else if k > atNodes { assert r.canNodes[k] == w.canNodes[k - 1]; }
    }
    forall k | 0 <= k < |r.ticks| ensures r.ticks[k] < |r.nodes| {
      if k < |w.ticks| { assert r.ticks[k] == w.ticks[k]; }
    }
    SameFlags(w.nodes, r.nodes, w.interlocks);
    AddTrueEntry(r.nodes, w.interlocks, HeartbeatEntry(n), atInterlock);
  }

  /** A new node's heartbeat entry starts out voting true. */
  lemma NodeAddedSafe(w: World, nodeId: int, atInterlock: nat, atNodes: nat)
    requires Valid(w)
    requires atInterlock <= |w.interlocks| && atNodes <= |w.canNodes|
    ensures Valid(NodeAdded(w, nodeId, atInterlock, atNodes))
    ensures Safe(NodeAdded(w, nodeId, atInterlock, atNodes)) <==> Safe(w)
  {
    var r := NodeAdded(w, nodeId, atInterlock, atNodes);
    NodeAddedValid(w, nodeId, atInterlock, atNodes);
    SameFlags(w.nodes, r.nodes, w.interlocks);
    AddTrueEntry(r.nodes, w.interlocks, HeartbeatEntry(|w.nodes|), atInterlock);
  }

  /** The `CanNode` constructor: register the heartbeat tick, add the heartbeat
      interlock entry, add the node to `canNodes`, set its id. The registries
      choose the insertion positions `atInterlock` and `atNodes`. */
  function ConstructNode(w: World, nodeId: int, atInterlock: nat, atNodes: nat): (r: (World, NodeRef))
    requires Valid(w)
    requires atInterlock <= |w.interlocks| && atNodes <= |w.canNodes|
    ensures Valid(r.0)
    ensures r.1 == |w.nodes| && |r.0.nodes| == |w.nodes| + 1 && r.0.nodes[..|w.nodes|] == w.nodes
    ensures r.0.nodes[r.1] == NewNode(nodeId)
    ensures r.1 in r.0.canNodes && r.1 in r.0.ticks && HeartbeatEntry(r.1) in r.0.interlocks
    ensures multiset(r.0.canNodes) == multiset(w.canNodes) + multiset{r.1}
    ensures multiset(r.0.ticks) == multiset(w.ticks) + multiset{r.1}
    ensures multiset(r.0.interlocks) == multiset(w.interlocks) + multiset{HeartbeatEntry(r.1)}
    ensures Safe(r.0) <==> Safe(w)
  {
    var r := NodeAdded(w, nodeId, atInterlock, atNodes);
    NodeAddedSafe(w, nodeId, atInterlock, atNodes);
    assert r.canNodes[atNodes] == |w.nodes| && r.ticks[|w.ticks|] == |w.nodes|;
    assert r.interlocks[atInterlock] == HeartbeatEntry(|w.nodes|);
    assert r.nodes[..|w.nodes|] == w.nodes;
    (r, |w.nodes|)
  }

  /** The world after the `CanNode` destructor. */
  function NodeRemoved(w: World, n: NodeRef): World
    requires n < |w.nodes|
  {
    World(w.nodes[n := w.nodes[n].(alive := false)],
          w.canNodes,
          Registry.Remove(w.ticks, n),
          Registry.Remove(w.interlocks, HeartbeatEntry(n)))
  }

  /** The destructor only takes handles out of registries, so every remaining
      handle still names a slot, and it cannot make a safe machine unsafe. */
  lemma NodeRemovedValid(w: World, n: NodeRef)
    requires Valid(w) && n < |w.nodes|
    ensures Valid(NodeRemoved(w, n))
    ensures Safe(w) ==> Safe(NodeRemoved(w, n))
    ensures n !in NodeRemoved(w, n).ticks
    ensures multiset(NodeRemoved(w, n).ticks) == multiset(w.ticks) - multiset{n}
    ensures multiset(NodeRemoved(w, n).interlocks) == multiset(w.interlocks) - multiset{HeartbeatEntry(n)}
  {
    var r := NodeRemoved(w, n);
    Registry.RemoveExactlyOne(w.ticks, n);
    Registry.RemoveExactlyOne(w.interlocks, HeartbeatEntry(n));
    Registry.RemoveDistinct(w.ticks, n);
    Registry.RemoveMembers(w.ticks, n);
    forall k | 0 <= k < |r.ticks| ensures r.ticks[k] < |r.nodes| {
      var j :| 0 <= j < |w.ticks| && w.ticks[j] == r.ticks[k];
    }
    SameFlags(w.nodes, r.nodes, w.interlocks);
    RemoveEntry(r.nodes, w.interlocks, HeartbeatEntry(n));
  }

  /** The `CanNode` destructor: unregister the tick and remove the heartbeat
      interlock entry. The `canNodes` entry is not removed, so the registry
      keeps a handle to the destroyed node. The body is `NodeRemoved(w, n)`
      written out, which the solver checks far more cheaply than the call. */
  function DestroyNode(w: World, n: NodeRef): (r: World)
    requires Valid(w) && n < |w.nodes|
    ensures Valid(r)
    ensures r.canNodes == w.canNodes
    ensures n !in r.ticks && multiset(r.ticks) == multiset(w.ticks) - multiset{n}
    ensures multiset(r.interlocks) == multiset(w.interlocks) - multiset{HeartbeatEntry(n)}
    ensures |r.nodes| == |w.nodes| && !r.nodes[n].alive
    ensures r.nodes[n] == w.nodes[n].(alive := false)
    ensures forall m :: 0 <= m < |w.nodes| && m != n ==> r.nodes[m] == w.nodes[m]
    ensures Safe(w) ==> Safe(r)
  {
    NodeRemovedValid(w, n);
    World(w.nodes[n := w.nodes[n].(alive := false)],
          w.canNodes,
          Registry.Remove(w.ticks, n),
          Registry.Remove(w.interlocks, HeartbeatEntry(n)))
  }

  /** A destroyed node stays in `canNodes`. */
  lemma DestroyedNodeStaysRegistered(w: World, n: NodeRef)
    requires Valid(w) && n < |w.nodes| && n in w.canNodes
    ensures n in DestroyNode(w, n).canNodes && !DestroyNode(w, n).nodes[n].alive
  {
  }

  // ---------------------------------------------------------------------------
  // Reception
  // ---------------------------------------------------------------------------

  /** The outcome of `can_message_received`: whether the bus Estop shutdown was
      raised, and which node, if any, claimed the frame. */
  datatype Reception = Reception(world: World, estop: bool, claimedBy: Registry.Option<NodeRef>)

  /** The visitor `can_message_received` hands to `canNodes.iterateOver`. */
  function NodeClaims(w: World, f: Frame): NodeRef -> bool
  {
    (n: NodeRef) => n < |w.nodes| && ProcessFrame(w.nodes[n], f).claimed
  }

  /** Position `k` of `canNodes` is the first registered node whose id matches
      the frame's `nodeId()`. */
  ghost predicate FirstClaimant(w: World, f: Frame, k: int)
    requires Valid(w)
  {
    && 0 <= k < |w.canNodes|
    && w.nodes[w.canNodes[k]].nodeId == NodeIdOf(f)
    && forall j :: 0 <= j < k ==> w.nodes[w.canNodes[j]].nodeId != NodeIdOf(f)
  }

  /** `can_message_received`: identifier 0 raises the shutdown ("CAN Estop") and
      consults no node; any other frame goes to the first registered node that
      claims it, which restarts its heartbeat count. */
  function MessageReceived(w: World, f: Frame): (r: Reception)
    requires Valid(w)
    ensures f.id == 0 ==> r == Reception(w, true, Registry.None)
    ensures f.id != 0 ==> !r.estop
    ensures f.id != 0 ==>
              (r.claimedBy.Some? <==>
                 exists k :: 0 <= k < |w.canNodes| && w.nodes[w.canNodes[k]].nodeId == NodeIdOf(f))
    ensures r.claimedBy.None? ==> r.world == w
    ensures r.claimedBy.Some? ==>
              && (exists k :: FirstClaimant(w, f, k) && w.canNodes[k] == r.claimedBy.value)
              && r.claimedBy.value < |w.nodes|
              && r.world == w.(nodes := w.nodes[r.claimedBy.value :=
                                 w.nodes[r.claimedBy.value].(heartbeatCounter := 0)])
  {
    if f.id == 0 then Reception(w, true, Registry.None)
    else
      var claims := NodeClaims(w, f);
      match Registry.FirstMatch(w.canNodes, claims)
      case None => Reception(w, false, Registry.None)
      case Some(k) =>
        var n := w.canNodes[k];
        assert FirstClaimant(w, f, k) by {
          forall j | 0 <= j < k ensures w.nodes[w.canNodes[j]].nodeId != NodeIdOf(f) {
            assert !claims(w.canNodes[j]);
          }
        }
        Reception(w.(nodes := w.nodes[n := ProcessFrame(w.nodes[n], f).node]),
                  false, Registry.Some(n))
  }

  /** The Estop frame raises the shutdown whatever nodes are registered. */
  lemma EstopIndependentOfNodes(w: World, v: World, f: Frame)
    requires Valid(w) && Valid(v) && f.id == 0
    ensures MessageReceived(w, f).estop && MessageReceived(v, f).estop
    ensures MessageReceived(w, f).world == w
  {
  }

  /** A standard 11-bit frame other than the Estop is claimed only by a node
      whose id is 0; a bus whose nodes all have ids 1 to 15 drops every such frame. */
  lemma StandardFramesReachOnlyNodeZero(w: World, f: Frame)
    requires Valid(w) && 0 < f.id < 0x800
    ensures var r := MessageReceived(w, f);
            r.claimedBy.Some? ==> w.nodes[r.claimedBy.value].nodeId == 0
    ensures (forall k :: 0 <= k < |w.canNodes| ==> 0 < w.nodes[w.canNodes[k]].nodeId < CanPhysicalNodeMax)
              ==> MessageReceived(w, f) == Reception(w, false, Registry.None)
  {
    NodeIdOfStandardFrame(f);
  }

  // ---------------------------------------------------------------------------
  // The periodic tick
  // ---------------------------------------------------------------------------

  /** Run the heartbeat tick of every node in `refs`, in order. */
  function TickRefs(nodes: seq<Node>, refs: seq<NodeRef>): (r: seq<Node>)
    requires forall k :: 0 <= k < |refs| ==> refs[k] < |nodes|
    requires Registry.Distinct(refs)
    ensures |r| == |nodes|
    ensures forall i :: 0 <= i < |nodes| ==> r[i] == if i in refs then Tick(nodes[i]) else nodes[i]
    decreases |refs|
  {
    if |refs| == 0 then nodes
    else
      var n := refs[0];
      var rest := refs[1..];
      Registry.DistinctTail(refs);
      TickRefs(nodes[n := Tick(nodes[n])], rest)
  }

  /** One scheduler tick: every registered heartbeat event runs once. */
  function TickAll(w: World): (r: World)
    requires Valid(w)
    ensures Valid(r)
    ensures r.canNodes == w.canNodes && r.ticks == w.ticks && r.interlocks == w.interlocks
    ensures |r.nodes| == |w.nodes|
    ensures forall i :: 0 <= i < |w.nodes| ==>
              r.nodes[i] == if i in w.ticks then Tick(w.nodes[i]) else w.nodes[i]
  {
    w.(nodes := TickRefs(w.nodes, w.ticks))
  }

  /** A registered node that has just been heard from (count 0) makes the
      aggregate unsafe at the next tick: under `Safe` the heartbeat vote is inverted. */
  lemma FreshNodeMakesMachineUnsafe(w: World, n: NodeRef)
    requires Valid(w) && n < |w.nodes| && n in w.ticks && HeartbeatEntry(n) in w.interlocks
    requires w.nodes[n].heartbeatCounter == 0
    ensures !Safe(TickAll(w))
  {
    var k :| 0 <= k < |w.interlocks| && w.interlocks[k] == HeartbeatEntry(n);
    assert !Vote(TickAll(w).nodes, TickAll(w).interlocks[k]);
  }

  /** After a tick the aggregate is safe exactly when every ticking node with a
      heartbeat entry has gone more than the timeout without a frame. */
  lemma SafeAfterTickIffTimedOut(w: World)
    requires Valid(w)
    requires forall k :: 0 <= k < |w.interlocks| && w.interlocks[k].HeartbeatEntry? ==>
               w.interlocks[k].node in w.ticks
    ensures Safe(TickAll(w)) <==>
              forall k :: 0 <= k < |w.interlocks| && w.interlocks[k].HeartbeatEntry? ==>
                w.nodes[w.interlocks[k].node].heartbeatCounter + 1 > CanHeartbeatTimeout
  {
    var r := TickAll(w);
    SafeIffHeartbeats(r);
  }

  // ---------------------------------------------------------------------------
  // Endpoints
  // ---------------------------------------------------------------------------

  /** The `CanEndpoint` constructor. `this->node = node` assigns the member to
      itself, so the constructor's node argument is never read and has no
      parameter here: the endpoint keeps whatever its storage held, `stale`. It
      then registers on that node's endpoint list, adds `initInterlock` and sets
      INITIALIZING. */
  function ConstructEndpoint(w: World, e: EndpointRef, stale: NodeRef,
                             atEndpoint: nat, atInterlock: nat): (r: (World, Endpoint))
    requires Valid(w) && stale < |w.nodes|
    requires atEndpoint <= |w.nodes[stale].endpoints| && atInterlock <= |w.interlocks|
    ensures Valid(r.0)
    ensures r.1 == Endpoint(stale, Initializing)
    ensures |r.0.nodes| == |w.nodes| && e in r.0.nodes[stale].endpoints
    ensures multiset(r.0.nodes[stale].endpoints) == multiset(w.nodes[stale].endpoints) + multiset{e}
    ensures r.0.nodes[stale] == w.nodes[stale].(endpoints := r.0.nodes[stale].endpoints)
    ensures forall m :: 0 <= m < |w.nodes| && m != stale ==> r.0.nodes[m] == w.nodes[m]
    ensures multiset(r.0.interlocks) == multiset(w.interlocks) + multiset{EndpointEntry(e)}
    ensures r.0.canNodes == w.canNodes && r.0.ticks == w.ticks
    ensures Safe(r.0) <==> Safe(w)
  {
    var node := w.nodes[stale];
    var nodes := w.nodes[stale := node.(endpoints := Registry.Add(node.endpoints, e, atEndpoint))];
    SameFlags(w.nodes, nodes, w.interlocks);
    AddTrueEntry(nodes, w.interlocks, EndpointEntry(e), atInterlock);
    (w.(nodes := nodes, interlocks := Registry.Add(w.interlocks, EndpointEntry(e), atInterlock)),
     Endpoint(stale, Initializing))
  }

  /** The `CanEndpoint` destructor: leave the node's endpoint list; the
      `initInterlock` entry stays on the interlock list. */
  function DestroyEndpoint(w: World, e: EndpointRef, ep: Endpoint): (r: World)
    requires Valid(w) && ep.node < |w.nodes|
    ensures Valid(r)
    ensures r.interlocks == w.interlocks && r.canNodes == w.canNodes && r.ticks == w.ticks
    ensures |r.nodes| == |w.nodes|
    ensures multiset(r.nodes[ep.node].endpoints) == multiset(w.nodes[ep.node].endpoints) - multiset{e}
    ensures r.nodes[ep.node] == w.nodes[ep.node].(endpoints := r.nodes[ep.node].endpoints)
    ensures forall m :: 0 <= m < |w.nodes| && m != ep.node ==> r.nodes[m] == w.nodes[m]
  {
    var node := w.nodes[ep.node];
    Registry.RemoveExactlyOne(node.endpoints, e);
    w.(nodes := w.nodes[ep.node := node.(endpoints := Registry.Remove(node.endpoints, e))])
  }

  /** Constructing then destroying an endpoint restores the node's endpoint list
      but leaves one more `initInterlock` entry behind. */
  lemma EndpointInterlockLeaks(w: World, e: EndpointRef, stale: NodeRef, atEndpoint: nat, atInterlock: nat)
    requires Valid(w) && stale < |w.nodes| && e !in w.nodes[stale].endpoints
    requires atEndpoint <= |w.nodes[stale].endpoints| && atInterlock <= |w.interlocks|
    ensures var c := ConstructEndpoint(w, e, stale, atEndpoint, atInterlock);
            var d := DestroyEndpoint(c.0, e, c.1);
            && d.nodes == w.nodes
            && multiset(d.interlocks) == multiset(w.interlocks) + multiset{EndpointEntry(e)}
  {
    var c := ConstructEndpoint(w, e, stale, atEndpoint, atInterlock);
    var d := DestroyEndpoint(c.0, e, c.1);
    Registry.RemoveAfterAdd(w.nodes[stale].endpoints, e, atEndpoint);
    assert d.nodes[stale] == w.nodes[stale];
    assert d.nodes == w.nodes;
  }

  // ---------------------------------------------------------------------------
  // The CAN digital input
  // ---------------------------------------------------------------------------

  /** The visitor of the reparenting search in the `CanDigitalInput` constructor. */
  function ReparentClaims(w: World, canId: int): NodeRef -> bool
  {
    (n: NodeRef) => n < |w.nodes| && ReparentTest(w.nodes[n].nodeId, canId)
  }

  /** The `CanDigitalInput` constructor: the `CanEndpoint` base (given the
      uninitialised `this->node`, which is `stale` again), then the
      `ioDigitalInput` base with pin `canId` as a `uint16_t`, then the search of
      `canNodes` for a node to move onto, whose test never succeeds. */
  function ConstructBridge(w: World, e: EndpointRef, canId: int, mode: Gpio.IoMode,
                           action: Gpio.InputAction, func: Gpio.InputFunc, lockoutMs: Uint16,
                           stale: NodeRef, junk: Gpio.Indeterminate,
                           atEndpoint: nat, atInterlock: nat): (r: (World, CanDigitalInput))
    requires Valid(w) && stale < |w.nodes|
    requires atEndpoint <= |w.nodes[stale].endpoints| && atInterlock <= |w.interlocks|
    ensures Valid(r.0)
    ensures r.1.endpoint == Endpoint(stale, Initializing) && r.1.canId == canId
    ensures r.1.input == Gpio.NewInput(ToUint16(canId), mode, action, func, lockoutMs, junk)
    ensures |r.0.nodes| == |w.nodes| && r.0.canNodes == w.canNodes && r.0.ticks == w.ticks
    ensures multiset(r.0.interlocks) == multiset(w.interlocks) + multiset{EndpointEntry(e)}
    ensures forall m :: 0 <= m < |w.nodes| && m != stale ==> r.0.nodes[m] == w.nodes[m]
    ensures r.0.nodes[stale] == w.nodes[stale].(endpoints := r.0.nodes[stale].endpoints)
    ensures multiset(r.0.nodes[stale].endpoints) == multiset(w.nodes[stale].endpoints) + multiset{e}
  {
    var (w1, ep) := ConstructEndpoint(w, e, stale, atEndpoint, atInterlock);
    var input := Gpio.NewInput(ToUint16(canId), mode, action, func, lockoutMs, junk);
    var bridge := CanDigitalInput(ep, input, canId);
    match Registry.FirstMatch(w1.canNodes, ReparentClaims(w1, canId))
    case None => (w1, bridge)
    case Some(_) => assert false; (w1, bridge)
  }

  /** The reparenting search never finds a node, whatever the ids. */
  lemma ReparentSearchFails(w: World, canId: int)
    ensures !Registry.IterateOver(w.canNodes, ReparentClaims(w, canId))
  {
  }

  // ---------------------------------------------------------------------------
  // Interlock entries of digital inputs
  // ---------------------------------------------------------------------------

  /** One effect's change to the interlock list: the input `owner`'s entry is
      added at position `at`, clamped to the list, or removed. */
  function ApplyInputEffect(l: seq<InterlockEntry>, owner: nat, effect: Gpio.Effect, at: nat)
    : (r: seq<InterlockEntry>)
    ensures forall e :: e != InputEntry(owner) ==> multiset(r)[e] == multiset(l)[e]
    ensures effect != Gpio.InterlockAdd && effect != Gpio.InterlockRemove ==> r == l
  {
    match effect
    case InterlockAdd => Registry.Add(l, InputEntry(owner), if at <= |l| then at else |l|)
    case InterlockRemove => Registry.RemoveExactlyOne(l, InputEntry(owner)); Registry.Remove(l, InputEntry(owner))
    case _ => l
  }

  /** Apply the interlock effects of one input update for the input `owner`
      (its entry is added at position `at`, clamped to the list). */
  function ApplyInputEffects(l: seq<InterlockEntry>, owner: nat, effects: seq<Gpio.Effect>, at: nat)
    : (r: seq<InterlockEntry>)
    ensures forall e :: e != InputEntry(owner) ==> multiset(r)[e] == multiset(l)[e]
    ensures Gpio.InterlockAdd !in effects && Gpio.InterlockRemove !in effects ==> r == l
    decreases |effects|
  {
    if |effects| == 0 then l
    else
      assert effects == [effects[0]] + effects[1..];
      ApplyInputEffects(ApplyInputEffect(l, owner, effects[0], at), owner, effects[1..], at)
  }

  /** Two lists that hold the same entries apart from copies of `x`, an entry
      that votes true, reach the same verdict. */
  lemma AgreeApartFromTrue(nodes: seq<Node>, l: seq<InterlockEntry>, l': seq<InterlockEntry>, x: InterlockEntry)
    requires EntriesInRange(nodes, l) && InRange(nodes, x) && Vote(nodes, x)
    requires forall e :: e != x ==> multiset(l')[e] == multiset(l)[e]
    ensures EntriesInRange(nodes, l')
    ensures AllTrue(nodes, l') <==> AllTrue(nodes, l)
  {
    forall k | 0 <= k < |l'| ensures InRange(nodes, l'[k]) && (AllTrue(nodes, l) ==> Vote(nodes, l'[k])) {
      if l'[k] != x {
        assert l'[k] in multiset(l');
        assert l'[k] in multiset(l);
        var j :| 0 <= j < |l| && l[j] == l'[k];
      }
    }
    if AllTrue(nodes, l') {
      forall k | 0 <= k < |l| ensures Vote(nodes, l[k]) {
        if l[k] != x {
          assert l[k] in multiset(l);
          assert l[k] in multiset(l');
          var j :| 0 <= j < |l'| && l'[j] == l[k];
        }
      }
    }
  }

  /** An input's interlock entry never changes the aggregate, however often the
      input adds or removes it. */
  lemma InputEffectsKeepSafety(w: World, owner: nat, effects: seq<Gpio.Effect>, at: nat)
    requires Valid(w)
    ensures var v := w.(interlocks := ApplyInputEffects(w.interlocks, owner, effects, at));
            Valid(v) && (Safe(v) <==> Safe(w))
  {
    AgreeApartFromTrue(w.nodes, w.interlocks, ApplyInputEffects(w.interlocks, owner, effects, at), InputEntry(owner));
  }

  /** The list change of a normal-mode commit of an interlock input. */
  lemma ApplyCommit(l: seq<InterlockEntry>, owner: nat, at: nat)
    ensures ApplyInputEffects(l, owner, [Gpio.InterlockAdd, Gpio.StatusReport], at)
            == Registry.Add(l, InputEntry(owner), if at <= |l| then at else |l|)
    ensures ApplyInputEffects(l, owner, [Gpio.InterlockRemove, Gpio.StatusReport], at)
            == Registry.Remove(l, InputEntry(owner))
  {
    assert [Gpio.InterlockAdd, Gpio.StatusReport][1..] == [Gpio.StatusReport];
    assert [Gpio.InterlockRemove, Gpio.StatusReport][1..] == [Gpio.StatusReport];
  }

  /** The interlock list along `Gpio.HomingSkipsInterlockRelease`: the release
      during homing skips the `removeEntry`, so the next leading edge adds the
      input's entry a second time, and after the following release one entry
      remains although the input is inactive. */
  lemma HomingLeavesInterlockEntry(owner: nat, l: seq<InterlockEntry>, at: nat)
    requires InputEntry(owner) !in l
    ensures var add := [Gpio.InterlockAdd, Gpio.StatusReport];
            var l1 := ApplyInputEffects(l, owner, add, at);
            var l2 := ApplyInputEffects(l1, owner, [], at);
            var l3 := ApplyInputEffects(l2, owner, add, at);
            var l4 := ApplyInputEffects(l3, owner, [Gpio.InterlockRemove, Gpio.StatusReport], at);
            && multiset(l2)[InputEntry(owner)] == 1
            && multiset(l3)[InputEntry(owner)] == 2
            && multiset(l4)[InputEntry(owner)] == 1
  {
    var x := InputEntry(owner);
    var add := [Gpio.InterlockAdd, Gpio.StatusReport];
    ApplyCommit(l, owner, at);
    var l1 := ApplyInputEffects(l, owner, add, at);
    ApplyCommit(l1, owner, at);
    var l3 := ApplyInputEffects(l1, owner, add, at);
    ApplyCommit(l3, owner, at);
    Registry.RemoveExactlyOne(l3, x);
    assert multiset(l)[x] == 0;
  }

  // ---------------------------------------------------------------------------
  // The opposite reading of the interlock list
  // ---------------------------------------------------------------------------

  /** Read as `Interlocked`, an interlock input that engages holds the machine. */
  lemma EngagedInputInterlocks(w: World, owner: nat, at: nat)
    requires Valid(w)
    ensures var v := w.(interlocks := ApplyInputEffects(w.interlocks, owner, [Gpio.InterlockAdd, Gpio.StatusReport], at));
            Valid(v) && Interlocked(v)
  {
  }

  /** Read as `Interlocked`, a node's heartbeat entry holds the machine exactly
      when the node has gone more than the timeout without a frame. */
  lemma TimedOutNodeInterlocks(w: World, n: NodeRef)
    requires Valid(w) && n < |w.nodes| && n in w.ticks && HeartbeatEntry(n) in w.interlocks
    ensures Vote(TickAll(w).nodes, HeartbeatEntry(n)) <==> w.nodes[n].heartbeatCounter + 1 > CanHeartbeatTimeout
    ensures w.nodes[n].heartbeatCounter + 1 > CanHeartbeatTimeout ==> Interlocked(TickAll(w))
  {
  }

  /** Read as `Interlocked`, every endpoint holds the machine from its
      construction on: `initInterlock` reads true and nothing removes it when
      the endpoint starts running. */
  lemma LiveEndpointInterlocks(w: World, e: EndpointRef, stale: NodeRef, atEndpoint: nat, atInterlock: nat)
    requires Valid(w) && stale < |w.nodes|
    requires atEndpoint <= |w.nodes[stale].endpoints| && atInterlock <= |w.interlocks|
    ensures Interlocked(ConstructEndpoint(w, e, stale, atEndpoint, atInterlock).0)
  {
    var r := ConstructEndpoint(w, e, stale, atEndpoint, atInterlock).0;
    assert EndpointEntry(e) in multiset(r.interlocks);
    var k :| 0 <= k < |r.interlocks| && r.interlocks[k] == EndpointEntry(e);
    assert Vote(r.nodes, r.interlocks[k]);
  }

  /** Read as `Interlocked`, the entry an endpoint leaks holds the machine for
      good once the endpoint is destroyed. */
  lemma DestroyedEndpointKeepsInterlock(w: World, e: EndpointRef, stale: NodeRef, atEndpoint: nat, atInterlock: nat)
    requires Valid(w) && stale < |w.nodes| && e !in w.nodes[stale].endpoints
    requires atEndpoint <= |w.nodes[stale].endpoints| && atInterlock <= |w.interlocks|
    ensures var c := ConstructEndpoint(w, e, stale, atEndpoint, atInterlock);
            var d := DestroyEndpoint(c.0, e, c.1);
            Valid(d) && Interlocked(d)
  {
  }
}
