# g2core digital inputs and CAN supervision, modelled in Dafny

This project models the I/O layer of the g2core CNC controller, covering two parts:

- The digital-input state machine. This is `ioDigitalInput` with its lockout (debounce) window, NO/NC polarity correction, edge detection, and priority dispatch of homing, probing, actions and functions.
- The field-bus layer built beside it. This covers the CAN identifier constants, `CanFrame::nodeId()`, node heartbeat supervision, frame routing through `can_message_received` and `CanNode::processFrame`, and the endpoint and `CanDigitalInput` bridge lifecycle.

Each of these writes into the machine's safety interlock list. The model also covers that list, plus the registry-backed helpers of `gpio.cpp`: `inputs_reset`, the first-match lookups and the configuration setters.

Everything is functional:
- Each object is an immutable datatype.
- Each operation is a pure step function that returns the new state together with the requests it makes of the machine-control layer (`Gpio.Effect`).
- Every registry is a sequence of handles. `addEntry` inserts at a position the registry chooses, which is a parameter here. `removeEntry` unlinks the first occurrence and does nothing when the handle is absent. `iterateOver` stops at the first visitor that returns true.
- Nodes live in an arena, the `nodes` of `CanWorld.World`, and are named by index. An endpoint has no slot: it is named by a bare number (`EndpointRef`) on its node's endpoint list, and its `Endpoint` value is returned to the caller.

The model follows the code as written. Where the code parts from what its own constants, comments and names show was intended, the departure is stated as a lemma:

- `nodeId()` masks with the single bit `1 << 15`, because `-` binds tighter than `<<`. It is therefore 0 for every 11-bit identifier, and only a node whose id is 0 can claim an ordinary frame. The header's own layout points at a low node field instead: `canPhysicalNodeMax` is `1 << (canIDLength - canIDTypeBits)`, a 4-bit field, and the heartbeat and poll bases are a 7-bit type times 16, which leaves the low 4 bits for the node, as `poll()` uses them (`canPollIDStart + nodeId`).
- The reparenting test in the `CanDigitalInput` constructor reads `(nodeId == canId) & 0x8000`, so it never succeeds.
- The heartbeat flag is `counter > 100`: it reads false while frames arrive and true once the node has timed out. Whether that is inverted depends on how the interlock list is read (below).
- `gpio_read_input` returns its argument instead of the input's state.
- The `CanEndpoint` constructor assigns `node` to itself. The endpoint therefore registers on whatever node its storage happened to name. In the model this is the `stale` parameter.
- `CanEndpoint::processMessage` is a non-virtual stub with an empty body. Its comment says it decides whether a message should continue to propagate, but node dispatch never reaches `CanDigitalInput::processMessage`. The stub is declared `bool` yet returns nothing, which is undefined behaviour in C++. The model treats the call as returning without effect, so the traversal of a node's endpoints in `processFrame` does not appear in it.
- An endpoint's interlock entry points at the global `canTrueBool` (true, never written). Its destructor does not remove the entry, and the `CanNode` destructor leaves the node in `canNodes`.
- An interlock input released while homing mode is set never calls `removeEntry`, so its entry stays on the list while the input is inactive. Its next engagement calls `addEntry` on an entry that is still linked (see "Left out" for what the model makes of that).

Nothing in the modelled code reads `cm.saftey_interlock_list`. Its reader is not part of this model, so what an entry's value means is assumed, and two readings are stated:

- `CanWorld.Safe`, the reading the rest of the model uses: an entry that reads true allows motion, and the machine may move when every entry reads true. Under it, the heartbeat flag is inverted: a node just heard from blocks motion and a silent one allows it (`FreshNodeMakesMachineUnsafe`). And because an input's entry always reads true (`trueBool`), an input with the INTERLOCK function can never stop the machine (`InputEffectsKeepSafety`).
- `CanWorld.Interlocked`: an entry that reads true holds the machine, which is held while any entry reads true. Under it, an engaging INTERLOCK input holds the machine (`EngagedInputInterlocks`). A node's entry holds it exactly once the node has timed out, so the heartbeat flag is not inverted (`TimedOutNodeInterlocks`). Every endpoint holds the machine from its construction on, running or not, because its `initInterlock` entry reads true and is never removed (`LiveEndpointInterlocks`). After the endpoint is destroyed, the entry it leaks still holds the machine (`DestroyedEndpointKeepsInterlock`).

Modules: `CInts` (C integer conversions), `Registry`, `Gpio` (one input), `GpioRegistry` (the input list and configuration), `CanFrame` (identifier arithmetic), `CanNode` (node, endpoint, bridge), `CanWorld` (lifecycles, routing, ticks, interlock aggregate).

## Model

| member | source | states |
|---|---|---|
| Registry.FirstMatch | g2core/gpio.cpp:526-533 | a traversal stops at the first entry whose visitor returns true, and finds none exactly when no visitor returns true |
| Registry.IterateOver | g2core/gpio.cpp:526-533 | `iterateOver` returns true iff some entry's visitor returns true |
| Registry.Add | g2core/can_bus.cpp:47-52 | `addEntry` adds exactly one copy of the handle and keeps every other entry |
| Registry.Remove | g2core/can_bus.cpp:54-57 | `removeEntry` unlinks at most one handle; which one is stated by `RemoveExactlyOne` and `RemoveAfterPrefix` |
| Registry.RemoveExactlyOne | g2core/can_bus.cpp:54-57 | `removeEntry` removes exactly one copy of a present handle, shortening the registry by one, and leaves the registry unchanged when it is absent |
| Registry.RemoveAbsent | g2core/can_bus.cpp:54-57 | removing a handle that is not registered changes nothing |
| Registry.RemoveMembers | g2core/can_bus.cpp:54-57 | removing a handle keeps every other handle and introduces none |
| Registry.RemoveDistinct | g2core/can_bus.cpp:54-57 | in a registry without duplicates, removal takes the handle out completely and keeps the registry duplicate-free |
| Registry.RemoveAfterPrefix | g2core/can_bus.cpp:54-57 | removal unlinks the copy of the handle that follows a prefix without it, and only that copy |
| Registry.RemoveAfterAdd | g2core/can_bus.cpp:15-24 | adding an absent handle and removing it again restores the registry exactly, wherever the handle was inserted |
| CInts.ToInt8 | g2core/gpio.cpp:439-442 | storing into an `int8_t` keeps the value modulo 256 in [-128, 128) and is the identity on that range |
| CInts.ToUint8 | g2core/gpio.cpp:525 | storing into a `uint8_t` keeps the value modulo 256 and is the identity on [0, 256) |
| CInts.ToUint16 | g2core/can_bus.cpp:36 | passing the `int` CAN id as the `uint16_t` pin keeps it modulo 2^16 and is the identity on [0, 2^16) |
| CInts.ToUint32 | g2core/can_bus.cpp:27 | converting an `int` to `uint32_t` keeps the value modulo 2^32 |
| Gpio.ModeOf | g2core/gpio.h:40-45 | every mode code in [0, 3) denotes exactly one `ioMode`, whose code it is |
| Gpio.ActionOf | g2core/gpio.h:49-60 | every action code in [0, 9) denotes exactly one `inputAction`, whose code it is |
| Gpio.FunctionOf | g2core/gpio.h:62-70 | every function code in [0, 6) denotes exactly one `inputFunc`, whose code it is |
| Gpio.SetTimeout | g2core/gpio.cpp:95 | arming the lockout sets the timer and makes it expire `lockout_ms` after now |
| Gpio.ResetInput | g2core/gpio.cpp:68-75 | `reset()` forces a disabled input's state to DISABLED and keeps its timer; for an enabled input it only disarms the lockout; the configuration and edge are kept |
| Gpio.NewInput | g2core/gpio.h:117-124 | the constructor stores pin, mode, action, function and lockout, then resets; state (unless disabled), edge and the mode flags keep whatever the storage held |
| Gpio.DefaultInputDisabled | g2core/gpio.h:117-124 | with the default arguments an input is disabled, has no action or function and a 10 ms lockout, and ignores every sample |
| Gpio.Corrected | g2core/gpio.cpp:89 | for an enabled mode, the corrected value `raw ^ (mode ^ 1)` is 0 or 1, and is 1 iff the raw level is the mode's active level |
| Gpio.CorrectionAgainstModeCode | g2core/gpio.cpp:89 | with the enum encodings, an enabled input reads ACTIVE iff the raw level equals the mode code |
| Gpio.UpdateValue | g2core/gpio.cpp:77-178 | a disabled input is forced to DISABLED with nothing else changed; a held or unchanged sample is a complete no-op; a commit re-arms the lockout and sets a non-disabled state, different from the old one and ACTIVE iff the raw level is active, with a LEADING edge iff ACTIVE; the configuration never changes; a status report is requested iff a commit happens outside homing and probing |
| Gpio.HomingDispatch | g2core/gpio.cpp:106-112 | in homing mode, a leading edge requests exactly [encoder snapshot, hold] and a trailing edge requests nothing |
| Gpio.Dispatch | g2core/gpio.cpp:105-177 | in homing mode something is requested iff the edge is leading; in probing mode exactly [encoder snapshot, hold]; a status report iff neither mode is set; the interlock entry is added on a leading and removed on a trailing edge of an INTERLOCK input, and only outside both modes |
| Gpio.ProbingDispatch | g2core/gpio.cpp:115-122 | in probing mode outside homing, either edge requests exactly [encoder snapshot, hold] |
| Gpio.ActionTable | g2core/gpio.cpp:127-155 | STOP and FAST_STOP hold, HALT halts all, ALARM, SHUTDOWN and PANIC raise their fault with the pin, RESET hard-resets, and NONE and CYCLE_START request nothing, each in both directions |
| Gpio.NormalDispatch | g2core/gpio.cpp:125-177 | outside homing and probing, a leading edge requests the action then the function, a trailing edge requests only the trailing function, and exactly one status report comes last |
| Gpio.FunctionTable | g2core/gpio.cpp:158-175 | on a leading edge LIMIT and SHUTDOWN record the pin and INTERLOCK adds the entry; on a trailing edge only INTERLOCK acts, removing the entry; PROBE and TOOL_HEIGHT_SETTER do nothing |
| Gpio.UpdateIdempotent | g2core/gpio.cpp:89-92 | feeding the same sample again after a commit changes nothing |
| Gpio.ResetReleasesLockout | g2core/gpio.cpp:68-75 | after `reset()` the next sample of an enabled input is never held, and a differing sample commits |
| Gpio.LimitSwitchScenario | g2core/gpio.cpp:84-103 | a normally-open limit switch with a 10 ms lockout fires at t=0, ignores a bounce at t=2, and ignores a sample at t=12 that matches its state |
| Gpio.HomingSkipsInterlockRelease | g2core/gpio.cpp:106-177 | an interlock input released during homing requests no removal, and its next engagement requests the entry again |
| GpioRegistry.FindPin | g2core/gpio.cpp:526-533 | the lookup finds the first input with the pin, or reports that no input has it |
| GpioRegistry.InputsReset | g2core/gpio.cpp:367-372 | `inputs_reset` resets every registered input in place: disabled ones read DISABLED, enabled ones lose their lockout and keep their state |
| GpioRegistry.InputsResetIdempotent | g2core/gpio.cpp:367-372 | resetting all inputs twice is the same as resetting them once |
| GpioRegistry.SetHomingMode | g2core/gpio.cpp:407-421 | pin 0 is ignored; otherwise only the first input with the pin has its homing flag set |
| GpioRegistry.HomingModeLastWriteWins | g2core/gpio.cpp:407-421 | of two successive homing-flag writes to one pin, only the second is visible |
| GpioRegistry.SetProbingMode | g2core/gpio.cpp:423-435 | pin 0 is ignored; otherwise only the first input with the pin has its probing flag set |
| GpioRegistry.GetProbingInput | g2core/gpio.cpp:437-447 | the result is -1 when no input is a probe; otherwise it is the first probe input's pin stored into `int8_t`, which equals the pin below 128 |
| GpioRegistry.ProbingPinWraps | g2core/gpio.cpp:437-447 | a probe on pin 255 is reported as -1, the value meaning "no probe input" |
| GpioRegistry.ReadInput | g2core/gpio.cpp:449-463 | `gpio_read_input` returns true iff its argument is non-zero, whatever the inputs hold |
| GpioRegistry.ReadInputIgnoresState | g2core/gpio.cpp:462 | an inactive input is reported as true |
| GpioRegistry.GetInput | g2core/gpio.cpp:524-542 | the range error is returned iff no input has the pin (as `uint8_t`); otherwise the first match's state code is returned, typed null iff the input is disabled |
| GpioRegistry.Store | g2core/gpio.cpp:477 | the write stores the code into the chosen member and leaves every other member of the input unchanged |
| GpioRegistry.InputSetHelper | g2core/gpio.cpp:472-482 | a value outside [lower, upper) is a range error with nothing written; otherwise the value is written into the target, which keeps every other field, and every input, the target included, is reset unless the machine is initializing, after which no enabled input is in lockout |
| GpioRegistry.SetMode | g2core/gpio.cpp:496-500 | modes 0 to 2 are accepted and stored; writing DISABLED outside initialization leaves the input's state DISABLED |
| GpioRegistry.SetAction | g2core/gpio.cpp:502-505 | actions 0 to 8 are accepted and stored |
| GpioRegistry.SetFunction | g2core/gpio.cpp:507-510 | functions 0 to 5 are accepted and stored |
| CanFrame.Constants | g2core/can_bus.h:13-20 | 16 physical nodes, heartbeat base 992, poll base 1008, timeout 100, and the node mask is the single bit 1 << 15 |
| CanFrame.NodeIdOf | g2core/can_bus.h:49-51 | `nodeId()` is 0 or 0x8000, and 0x8000 iff bit 15 of the identifier is set |
| CanFrame.NodeIdOfStandardFrame | g2core/can_bus.h:50 | `nodeId()` is 0 for every 11-bit identifier |
| CanFrame.NodeIdMissesNodeField | g2core/can_bus.h:50 | on every 11-bit identifier with a non-zero low node field, `nodeId()` differs from that field |
| CanFrame.PollFrame | g2core/can_bus.h:95-100 | `poll()` sends a zero-length frame on `1008 + nodeId` reduced modulo 2^32, which is `1008 + nodeId` whenever that sum fits; for node ids 0 to 15 the low field is the node id and the type field is the poll type |
| CanFrame.PollWideNode | g2core/can_bus.h:97 | node 0x8000, the only non-zero id that can claim a frame, is polled on 1008 + 0x8000, whose low field is 0 |
| CanFrame.ReparentTest | g2core/can_bus.cpp:39 | the reparenting condition is false for every node id and CAN id |
| CanNode.NewNode | g2core/can_bus.h:83-84 | a new node starts with counter 100, flag true and no endpoints |
| CanNode.Tick | g2core/can_bus.h:87-90 | a heartbeat tick adds exactly 1 to the counter, sets the flag to "counter > 100", and changes nothing else |
| CanNode.TickNCounts | g2core/can_bus.h:87-90 | after k ticks the counter has grown by k and the flag says whether it exceeds the timeout |
| CanNode.HeartbeatFlagInverted | g2core/can_bus.h:89 | after a frame, the flag reads false for exactly the first 100 ticks and true afterwards |
| CanNode.ProcessFrame | g2core/can_bus.cpp:59-69 | a node claims iff its id equals `nodeId()`; it then zeroes its counter and leaves the flag alone; a node that does not claim is unchanged; the endpoint traversal through the base `processMessage` is taken to return without effect |
| CanNode.OnlyNodeZeroClaims | g2core/can_bus.cpp:60 | a node claims an 11-bit frame iff its id is 0 |
| CanNode.NodeNeverClaims | g2core/can_bus.cpp:60 | a node whose id is neither 0 nor 0x8000 never claims a frame, so its counter is never zeroed |
| CanNode.ProcessMessage | g2core/can_bus.cpp:26-34 | the bridge claims iff the identifier equals the CAN id as `uint32_t`; then it feeds `bytes[0] != 0` to the input and is RUNNING; otherwise nothing changes; ERROR is never produced |
| CanNode.BridgeMatchesLocalInput | g2core/can_bus.cpp:28 | a claimed frame with a non-zero first byte updates the input exactly as a local high sample would |
| CanNode.ResetBridge | g2core/can_bus.h:111-115 | `reset()` resets the input, returns to INITIALIZING and polls the endpoint's node on `1008 + nodeId` modulo 2^32 |
| CanWorld.SafeIffHeartbeats | g2core/can_bus.h:84-85 | the aggregate is safe iff every node heartbeat entry reads true, since input and endpoint entries are constant true |
| CanWorld.Safe | g2core/can_bus.h:84-85 | the assumed reading of the list: the machine may move iff every entry reads true |
| CanWorld.Interlocked | g2core/can_bus.h:84-85 | the opposite reading: the machine is held iff some entry reads true |
| CanWorld.AddTrueEntry | g2core/can_bus.cpp:18 | adding an entry that reads true keeps every entry in range and leaves the `Safe` (every entry true) verdict unchanged |
| CanWorld.RemoveEntry | g2core/can_bus.cpp:56 | removing an entry cannot make a safe list unsafe |
| CanWorld.NodeAddedValid | g2core/can_bus.cpp:47-52 | after the node constructor every handle names an arena slot and no registry holds a node twice |
| CanWorld.NodeAddedSafe | g2core/can_bus.cpp:47-52 | a new node's heartbeat entry starts out safe, so constructing a node does not change the aggregate |
| CanWorld.ConstructNode | g2core/can_bus.cpp:47-52 | the constructor adds the new node exactly once to the tick list, the interlock list and `canNodes`, with its id and initial heartbeat |
| CanWorld.NodeRemovedValid | g2core/can_bus.cpp:54-57 | the destructor's world is well formed, the tick is gone, one heartbeat entry fewer, and a safe machine stays safe |
| CanWorld.DestroyNode | g2core/can_bus.cpp:54-57 | the destructor removes the tick and the heartbeat entry, leaves `canNodes` unchanged, and cannot make a safe machine unsafe |
| CanWorld.DestroyedNodeStaysRegistered | g2core/can_bus.cpp:54-57 | a destroyed node remains in `canNodes` |
| CanWorld.MessageReceived | g2core/can_bus.cpp:75-80 | identifier 0 raises the Estop shutdown and consults no node; any other frame is claimed iff some registered node's id equals `nodeId()`, and then by the first such node, whose counter alone is zeroed |
| CanWorld.EstopIndependentOfNodes | g2core/can_bus.cpp:76 | the Estop is raised whatever nodes are registered |
| CanWorld.StandardFramesReachOnlyNodeZero | g2core/can_bus.cpp:77-79 | a non-Estop 11-bit frame is claimed only by a node with id 0, and is dropped on a bus of nodes 1 to 15 |
| CanWorld.TickRefs | g2core/can_bus.h:87-90 | running the registered heartbeat events ticks each registered node once and leaves the others alone |
| CanWorld.TickAll | g2core/can_bus.h:87-90 | a scheduler tick changes only the heartbeat state of registered nodes |
| CanWorld.FreshNodeMakesMachineUnsafe | g2core/can_bus.h:89 | a supervised node just heard from makes the aggregate unsafe at the next tick |
| CanWorld.SafeAfterTickIffTimedOut | g2core/can_bus.h:87-90 | after a tick the aggregate is safe iff every supervised node has gone more than the timeout without a frame |
| CanWorld.ConstructEndpoint | g2core/can_bus.cpp:15-20 | the constructor registers the endpoint once on the node its storage names, which otherwise keeps its id and heartbeat state, adds one always-true interlock entry, starts INITIALIZING, and leaves the `Safe` aggregate unchanged |
| CanWorld.DestroyEndpoint | g2core/can_bus.cpp:22-24 | the destructor removes one copy of the endpoint from its node's endpoint list, changes nothing else of that node or any other, and keeps the interlock list unchanged |
| CanWorld.EndpointInterlockLeaks | g2core/can_bus.cpp:15-24 | constructing then destroying an endpoint restores the nodes but leaves one more interlock entry |
| CanWorld.ConstructBridge | g2core/can_bus.cpp:36-45 | a bridge is an INITIALIZING endpoint registered once on the stale node plus an input on pin `canId` as `uint16_t`; the reparenting search adds it to no further node, and no node changes otherwise |
| CanWorld.ReparentSearchFails | g2core/can_bus.cpp:38-44 | the reparenting traversal returns false on every node registry |
| CanWorld.ApplyInputEffect | g2core/gpio.cpp:170-175 | one interlock request changes only the count of that input's own entry; other effects leave the list alone |
| CanWorld.ApplyInputEffects | g2core/gpio.cpp:170-175 | an input's interlock requests change only the count of that input's own entry |
| CanWorld.InputEffectsKeepSafety | g2core/gpio.h:96-97 | an input's interlock entry never changes the aggregate, however often it is added or removed |
| CanWorld.ApplyCommit | g2core/gpio.cpp:170-175 | an engaging commit adds the input's entry once and a releasing one removes it once |
| CanWorld.HomingLeavesInterlockEntry | g2core/gpio.cpp:106-175 | along an engage / release-while-homing / engage / release sequence the list receives two `addEntry` calls and one `removeEntry` for the input's single entry, so the entry is still on the list while the input is inactive |
| CanWorld.EngagedInputInterlocks | g2core/gpio.cpp:165-166 | read as `Interlocked`, an engaging INTERLOCK input holds the machine |
| CanWorld.TimedOutNodeInterlocks | g2core/can_bus.h:87-90 | read as `Interlocked`, a node's heartbeat entry holds the machine exactly when the node has gone more than the timeout without a frame |
| CanWorld.LiveEndpointInterlocks | g2core/can_bus.cpp:15-20 | read as `Interlocked`, a just-constructed endpoint already holds the machine |
| CanWorld.DestroyedEndpointKeepsInterlock | g2core/can_bus.cpp:15-24 | read as `Interlocked`, the entry a destroyed endpoint leaves behind holds the machine |

## Left out

- Outputs are not modelled: `outputs_reset`, `io_set_domode`, `io_get_output` and `io_set_output`. They drive hardware pins with float values.
- `ioDigitalInputExt` is not modelled: its interrupt pin, its polling `SysTickEvent` and its overriding `reset()` are hardware glue. `inputs_reset` is modelled with the base `reset()`.
- The empty `can_heartbeat_check` event, `can_init` and `can_send_frame` are not modelled, because they are bus transport. Sent frames are returned as values (`OutFrame`).
- Text-mode printing is left out. So is the token and `strtol` parsing of `io_get_input`: the parsed number is a parameter.
- Configuration values (`nv->value`) are floats in the source and integers here. The target of a configuration write is an index into the input list, because the `nvObj_t` binding is not part of this model.
- `InputSetHelper`: requires the target index to exist and the bounds to lie inside the enumeration, as every caller passes them.
- `BytesUnion` word views are left out because they depend on endianness. Only `bytes[0]` is read. The family id, RTR, priority, extended and timestamp members of `CanFrame` are not read by the modelled code.
- `Motate::Timeout` internals are not modelled. The timer is `(armed, expiry)`, with `isPast()` read as `now >= expiry`; the exact boundary of the library is not visible.
- The machine-control calls (`cm_*`, `hw_hard_reset`, `en_take_encoder_snapshot`, `sr_request_status_report`) are effects in a returned list. Their messages and status codes are not modelled.
- `ActionTable`: ALARM, SHUTDOWN and PANIC format `"input %d"` into a 10-byte buffer, which overflows for pins of 1000 and above ("input 1000" plus its terminator is 11 bytes). Bridge pins reach 2047. `ActionEffects` and `ActionTable` still give these pins the defined effects `AlarmRaised(pin)`, `ShutdownRaised(pin)` and `PanicRaised(pin)`; the overflow is not modelled.
- The `DynamicRegistry` implementation is not part of this model. Insertion positions are parameters, and `removeEntry` unlinks the first occurrence.
- Interrupt and tick interleaving is not modelled: the model is sequential steps.
- `Tick`: the `int` heartbeat counter is unbounded here, so its signed overflow after 2^31 ticks is not modelled.
- `PollFrame`: `canPollIDStart + nodeId` adds two `int`s, which is a signed overflow, undefined in C++, for node ids above INT_MAX - 1008. For those ids the wrapped identifier modulo 2^32 is the model's own choice, not a promise of the source. The same holds for the poll sent by `ResetBridge`.
- `ProcessFrame`: node ids are unbounded integers. Comparing them with the unsigned `nodeId()` coincides with C's conversion for every value an `int` can hold.
- `NewInput`: uninitialised `state` and `edge` values are taken from the enumerations (`Indeterminate`). Values outside the enumerations are not modelled.
- `ConstructEndpoint`: the self-assigned `node` pointer is assumed to name an arena node (`stale`). What an arbitrary pointer would do is not modelled.
- `ResetBridge`: the polled node is a parameter, standing for whatever `this->node` names.
- `DestroyNode`: with `Safe(w) ==> Safe(r)` it states only one direction, because removing a heartbeat entry that reads false can make the aggregate safe.
- `HomingLeavesInterlockEntry`: the registry here is a sequence, so an `addEntry` of an entry that is still on the list gives it a second copy, and the counts 2 and 1 are the sequence's. In the source an input has one `safteyInterlockEntry` with a single `next` link, so the second `addEntry` relinks the same entry. What the intrusive list then holds, possibly a cycle, depends on `DynamicRegistry`, which is not part of this model. What the lemma does promise is that the entry is never taken off the list while the input is released.
- `MessageReceived`: a destroyed node stays in `canNodes`, and in the model its slot keeps its id, so it can still claim frames and have its counter zeroed. In the source that node's storage is gone and the traversal reads freed memory. The model does not say what that does.
- `ProcessFrame`: the traversal of a node's endpoints is not modelled. It calls the base `processMessage`, a `bool` function whose body is empty and so returns no value. That is undefined behaviour whenever a node that claims a frame has endpoints. The model takes the call to return without effect and discards its result, as `processFrame` does.
- `Interlocked` and `Safe` are both assumed readings: the code that samples the interlock list is not part of this model.
