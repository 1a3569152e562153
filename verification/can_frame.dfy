/** CAN identifier arithmetic (g2core/can_bus.h): the identifier constants,
    `CanFrame::nodeId()`, the poll frame, and the node-id test of the
    `CanDigitalInput` constructor, each with the C operator precedence of the
    source made explicit. */
module CanFrame {
  import opened CInts

  const CanIdLength := 11
  const CanIdTypeBits := 7
  /** `1 << (canIDLength - canIDTypeBits)`; see `Constants`. */
  const CanPhysicalNodeMax: int := 16
  const CanHeartbeat := 62
  const CanHeartbeatIdStart := CanHeartbeat * CanPhysicalNodeMax
  const CanPoll := 63
  const CanPollIdStart := CanPoll * CanPhysicalNodeMax
  const CanHeartbeatTimeout := 100

  /** The identifier width the low node field would cover: log2(canPhysicalNodeMax). */
  const NodeFieldBits := CanIdLength - CanIdTypeBits

  /** `1<<canPhysicalNodeMax - 1`: `-` binds tighter than `<<`, so this is the
      single bit 1 << 15, not the sixteen-bit mask (1 << 16) - 1. */
  const NodeIdMask: bv32 := 1 << (CanPhysicalNodeMax - 1)

  /** The eight payload bytes of `BytesUnion`, read through `bytes[]`. */
  type Payload = s: seq<Uint8> | |s| == 8 witness [0, 0, 0, 0, 0, 0, 0, 0]

  /** A received `CanFrame`. The family id, remote-request, priority, extended
      and timestamp members are never read by the modelled code. */
  datatype Frame = Frame(id: Uint32, length: Uint8, data: Payload)

  /** A frame handed to `can_send_frame`: only its identifier and length are
      set by the modelled code, and a zero-length frame carries no bytes. */
  datatype OutFrame = OutFrame(id: Uint32, length: Uint8)

  /** `CanFrame::nodeId()`: `id & (1<<canPhysicalNodeMax - 1)`. */
  function NodeIdOf(f: Frame): (r: int)
    ensures r == 0 || r == 0x8000
    ensures r == 0x8000 <==> (f.id / 0x8000) % 2 == 1
  {
    BitFifteenOf(f.id);
    ((f.id as bv32) & NodeIdMask) as int
  }

  /** Masking with the single bit 1 << 15 keeps bit 15 of `x` and nothing else. */
  lemma BitFifteenOf(x: Uint32)
    ensures ((x as bv32) & NodeIdMask) as int == if (x / 0x8000) % 2 == 1 then 0x8000 else 0
  {
    var b := x as bv32;
    assert NodeIdMask == 0x8000;
    assert b == ((b >> 16) << 16) | (((b >> 15) & 1) << 15) | (b & 0x7fff);
    assert ((b >> 15) & 1) as int == (x / 0x8000) % 2;
  }

  /** `nodeId()` of every 11-bit standard identifier is 0, whatever its node field. */
  lemma NodeIdOfStandardFrame(f: Frame)
    requires f.id < 0x800
    ensures NodeIdOf(f) == 0
  {
  }

  /** The node field the identifier layout intends: the low log2(canPhysicalNodeMax) bits. */
  function IntendedNodeField(id: Uint32): (r: int)
    ensures 0 <= r < CanPhysicalNodeMax
  {
    id % CanPhysicalNodeMax
  }

  /** `nodeId()` disagrees with the intended node field on every standard
      identifier whose node field is not 0. */
  lemma NodeIdMissesNodeField(f: Frame)
    requires f.id < 0x800 && IntendedNodeField(f.id) != 0
    ensures NodeIdOf(f) != IntendedNodeField(f.id)
  {
    NodeIdOfStandardFrame(f);
  }

  /** `CanNode::poll()`: a zero-length frame on `canPollIDStart + nodeId`
      (the `int` sum is stored into the `uint32_t` identifier). */
  function PollFrame(nodeId: int): (r: OutFrame)
    ensures r.length == 0
    ensures (r.id - (CanPollIdStart + nodeId)) % 0x1_0000_0000 == 0
    ensures 0 <= CanPollIdStart + nodeId < 0x1_0000_0000 ==> r.id == CanPollIdStart + nodeId
    ensures 0 <= nodeId < CanPhysicalNodeMax ==>
              && r.id == 1008 + nodeId
              && IntendedNodeField(r.id) == nodeId
              && r.id / CanPhysicalNodeMax == CanPoll
  {
    OutFrame(ToUint32(CanPollIdStart + nodeId), 0)
  }

  /** The only non-zero node id that can claim a frame, 1 << 15, is polled on
      identifier 1008 + 0x8000, whose low four bits are 0 like node 0's. */
  lemma PollWideNode()
    ensures PollFrame(0x8000).id == CanPollIdStart + 0x8000
    ensures IntendedNodeField(PollFrame(0x8000).id) == 0
  {
  }

  /** The reparenting test of the `CanDigitalInput` constructor,
      `_node->nodeId == _canId & (1<<canPhysicalNodeMax - 1)`: `==` binds tighter
      than `&`, so the 0-or-1 comparison result is masked with 1 << 15. */
  function ReparentTest(nodeId: int, canId: int): (r: bool)
    ensures !r
  {
    ((BoolToInt(nodeId == canId) as bv32) & NodeIdMask) != 0
  }

  /** 2 to the power `n`, the value of `1 << n`. */
  function Pow2(n: nat): nat
  {
    if n == 0 then 1 else 2 * Pow2(n - 1)
  }

  /** The identifier constants as the header defines them. */
  lemma Constants()
    ensures CanPhysicalNodeMax == Pow2(CanIdLength - CanIdTypeBits) && NodeFieldBits == 4
    ensures CanHeartbeatIdStart == 992 && CanPollIdStart == 1008
    ensures CanHeartbeatTimeout == 100
    ensures NodeIdMask as int == 0x8000
  {
  }
}
