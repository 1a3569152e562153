/** A CAN node and its heartbeat supervision, a CAN endpoint, and the bridge
    that feeds a remote switch into a digital input (g2core/can_bus.h and
    g2core/can_bus.cpp). Handles of other objects are arena indices. */
module CanNode {
  import opened CInts
  import opened CanFrame
  import Gpio
  import Registry

  type NodeRef = nat
  type EndpointRef = nat

  /** `CanNode`. `heartbeatFlag` is `heartbeatInterlockBool`, the value of the
      node's safety interlock entry. `alive` is false once the destructor ran. */
  datatype Node = Node(
    nodeId: int,
    heartbeatCounter: int,
    heartbeatFlag: bool,
    endpoints: seq<EndpointRef>,
    alive: bool)

  /** The member initialisers of a new node with id `nodeId`. */
  function NewNode(nodeId: int): (n: Node)
    ensures n.nodeId == nodeId && n.alive && n.endpoints == []
    ensures n.heartbeatCounter == CanHeartbeatTimeout && n.heartbeatFlag
  {
    Node(nodeId, CanHeartbeatTimeout, true, [], true)
  }

  /** The `heartbeatCheck` tick: one more tick without a frame, and the
      interlock value recomputed from the new count. */
  function Tick(n: Node): (r: Node)
    ensures r.heartbeatCounter == n.heartbeatCounter + 1
    ensures r.heartbeatFlag <==> r.heartbeatCounter > CanHeartbeatTimeout
    ensures r.(heartbeatCounter := n.heartbeatCounter, heartbeatFlag := n.heartbeatFlag) == n
  {
    var c := n.heartbeatCounter + 1;
    n.(heartbeatCounter := c, heartbeatFlag := c > CanHeartbeatTimeout)
  }

  /** `k` consecutive ticks. */
  function TickN(n: Node, k: nat): Node
  {
    if k == 0 then n else Tick(TickN(n, k - 1))
  }

  /** After `k >= 1` ticks the counter has grown by exactly `k`, and the flag is
      true exactly when it exceeds the timeout. */
  lemma {:induction false} TickNCounts(n: Node, k: nat)
    ensures TickN(n, k).heartbeatCounter == n.heartbeatCounter + k
    ensures TickN(n, k).nodeId == n.nodeId && TickN(n, k).endpoints == n.endpoints
    ensures k >= 1 ==> (TickN(n, k).heartbeatFlag <==> n.heartbeatCounter + k > CanHeartbeatTimeout)
  {
    if k > 0 {
      TickNCounts(n, k - 1);
    }
  }

  /** After a frame, the node's interlock entry reads false for the first 100
      ticks while the node is being heard from, and true once it has timed out:
      inverted when a true entry is read as allowing motion (`CanWorld.Safe`). */
  lemma HeartbeatFlagInverted(n: Node, k: nat)
    requires n.heartbeatCounter == 0 && k >= 1
    ensures !TickN(n, k).heartbeatFlag <==> k <= CanHeartbeatTimeout
  {
    TickNCounts(n, k);
  }

  /** The result of offering a frame to a node. */
  datatype NodeReply = NodeReply(node: Node, claimed: bool)

  /** `CanNode::processFrame`: a node claims a frame iff the frame's `nodeId()`
      equals its id; it then restarts its heartbeat count. The frame is also
      offered to its endpoints, but through the base `CanEndpoint::processMessage`,
      whose body is empty: that traversal changes nothing and its result is
      discarded, so it has no counterpart here. */
  function ProcessFrame(n: Node, f: Frame): (r: NodeReply)
    ensures r.claimed <==> n.nodeId == NodeIdOf(f)
    ensures r.claimed ==> r.node == n.(heartbeatCounter := 0)
    ensures !r.claimed ==> r.node == n
  {
    if n.nodeId == NodeIdOf(f) then NodeReply(n.(heartbeatCounter := 0), true)
    else NodeReply(n, false)
  }

  /** Only a node whose id is 0 can claim a standard 11-bit frame. */
  lemma OnlyNodeZeroClaims(n: Node, f: Frame)
    requires f.id < 0x800
    ensures ProcessFrame(n, f).claimed <==> n.nodeId == 0
  {
    NodeIdOfStandardFrame(f);
  }

  /** A node whose id is neither 0 nor 1 << 15 claims no frame at all, so its
      heartbeat count is never restarted. */
  lemma NodeNeverClaims(n: Node, f: Frame)
    requires n.nodeId != 0 && n.nodeId != 0x8000
    ensures !ProcessFrame(n, f).claimed
    ensures ProcessFrame(n, f).node == n
  {
  }

  // ---------------------------------------------------------------------------
  // Endpoints and the digital-input bridge
  // ---------------------------------------------------------------------------

  /** `CanEndpointState`. */
  datatype EndpointState = Initializing | Running | EndpointError

  /** `CanEndpoint`: the node it is registered on, and its state. */
  datatype Endpoint = Endpoint(node: NodeRef, state: EndpointState)

  /** `CanDigitalInput`: an endpoint and a digital input, with its CAN id. */
  datatype CanDigitalInput = CanDigitalInput(endpoint: Endpoint, input: Gpio.DigitalInput, canId: int)

  /** The outcome of `CanDigitalInput::processMessage`. */
  datatype BridgeReply = BridgeReply(bridge: CanDigitalInput, claimed: bool, effects: seq<Gpio.Effect>)

  /** `CanDigitalInput::processMessage` at time `now`: a frame whose full
      identifier equals the CAN id (compared as `uint32_t`) is claimed; its first
      payload byte, as a `bool`, is fed to the input, and the endpoint is running. */
  function ProcessMessage(c: CanDigitalInput, f: Frame, now: nat): (r: BridgeReply)
    ensures r.claimed <==> f.id == ToUint32(c.canId)
    ensures !r.claimed ==> r == BridgeReply(c, false, [])
    ensures r.claimed ==>
              && r.bridge.endpoint == c.endpoint.(state := Running)
              && r.bridge.canId == c.canId
              && Gpio.Step(r.bridge.input, r.effects) == Gpio.UpdateValue(c.input, now, f.data[0] != 0)
    ensures r.bridge.endpoint.state != EndpointError || c.endpoint.state == EndpointError
  {
    if f.id == ToUint32(c.canId) then
      var s := Gpio.UpdateValue(c.input, now, f.data[0] != 0);
      BridgeReply(c.(input := s.input, endpoint := c.endpoint.(state := Running)), true, s.effects)
    else BridgeReply(c, false, [])
  }

  /** A claimed frame whose first byte is non-zero is the same sample as a
      local pin reading high: the bridge input changes and reports exactly as
      a local input would. */
  lemma BridgeMatchesLocalInput(c: CanDigitalInput, f: Frame, now: nat)
    requires f.id == ToUint32(c.canId) && f.data[0] != 0
    ensures ProcessMessage(c, f, now).bridge.input == Gpio.UpdateValue(c.input, now, true).input
    ensures ProcessMessage(c, f, now).effects == Gpio.UpdateValue(c.input, now, true).effects
  {
  }

  /** `CanDigitalInput::reset`: reset the input, return to INITIALIZING, and
      poll the endpoint's node (`owner`). */
  function ResetBridge(c: CanDigitalInput, owner: Node): (r: (CanDigitalInput, OutFrame))
    ensures r.0.input == Gpio.ResetInput(c.input)
    ensures r.0.endpoint == c.endpoint.(state := Initializing) && r.0.canId == c.canId
    ensures r.1.length == 0
    ensures (r.1.id - (CanPollIdStart + owner.nodeId)) % 0x1_0000_0000 == 0
    ensures 0 <= CanPollIdStart + owner.nodeId < 0x1_0000_0000 ==> r.1.id == CanPollIdStart + owner.nodeId
    ensures 0 <= owner.nodeId < CanPhysicalNodeMax ==>
              r.1.id == CanPollIdStart + owner.nodeId && IntendedNodeField(r.1.id) == owner.nodeId
  {
    (c.(input := Gpio.ResetInput(c.input), endpoint := c.endpoint.(state := Initializing)),
     PollFrame(owner.nodeId))
  }
}
