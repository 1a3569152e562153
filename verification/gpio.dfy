/** One digital input of the controller: polarity correction, debounce lockout,
    edge detection and the dispatch of its configured action and function
    (g2core/gpio.h and the `ioDigitalInput` members of g2core/gpio.cpp).
    The machine-control calls an update makes are returned as a list of effects
    instead of being performed. */
module Gpio {
  import opened CInts

  /** `INPUT_LOCKOUT_MS`: default debounce lockout after an input fires. */
  const InputLockoutMs: Uint16 := 10

  // ---------------------------------------------------------------------------
  // Enumerations and their C encodings
  // ---------------------------------------------------------------------------

  /** `ioMode`. */
  datatype IoMode = ActiveLow | ActiveHigh | ModeDisabled

  /** `IO_MODE_MAX`: one past the last valid mode code. */
  const IoModeMax := 3

  function ModeCode(m: IoMode): int
  {
    match m
    case ActiveLow => 0
    case ActiveHigh => 1
    case ModeDisabled => 2
  }

  /** The mode a configuration write stores for code `c`. */
  function ModeOf(c: int): (m: IoMode)
    requires 0 <= c < IoModeMax
    ensures ModeCode(m) == c
  {
    if c == 0 then ActiveLow else if c == 1 then ActiveHigh else ModeDisabled
  }

  /** `inputAction`. */
  datatype InputAction =
    | ActionNone | Stop | FastStop | Halt | CycleStart | Alarm | Shutdown | Panic | Reset

  /** `INPUT_ACTION_MAX`. */
  const InputActionMax := 9

  function ActionCode(a: InputAction): int
  {
    match a
    case ActionNone => 0
    case Stop => 1
    case FastStop => 2
    case Halt => 3
    case CycleStart => 4
    case Alarm => 5
    case Shutdown => 6
    case Panic => 7
    case Reset => 8
  }

  function ActionOf(c: int): (a: InputAction)
    requires 0 <= c < InputActionMax
    ensures ActionCode(a) == c
  {
    if c == 0 then ActionNone else if c == 1 then Stop else if c == 2 then FastStop
    else if c == 3 then Halt else if c == 4 then CycleStart else if c == 5 then Alarm
    else if c == 6 then Shutdown else if c == 7 then Panic else Reset
  }

  /** `inputFunc`. */
  datatype InputFunc = FunctionNone | Limit | Interlock | ShutdownFunction | Probe | ToolHeightSetter

  /** `INPUT_FUNCTION_MAX`. */
  const InputFunctionMax := 6

  function FunctionCode(f: InputFunc): int
  {
    match f
    case FunctionNone => 0
    case Limit => 1
    case Interlock => 2
    case ShutdownFunction => 3
    case Probe => 4
    case ToolHeightSetter => 5
  }

  function FunctionOf(c: int): (f: InputFunc)
    requires 0 <= c < InputFunctionMax
    ensures FunctionCode(f) == c
  {
    if c == 0 then FunctionNone else if c == 1 then Limit else if c == 2 then Interlock
    else if c == 3 then ShutdownFunction else if c == 4 then Probe else ToolHeightSetter
  }

  /** `ioState`. */
  datatype IoState = Inactive | Active | StateDisabled

  function StateCode(s: IoState): int
  {
    match s
    case Inactive => 0
    case Active => 1
    case StateDisabled => 2
  }

  /** `inputEdgeFlag`. */
  datatype EdgeFlag = EdgeNone | Leading | Trailing

  // ---------------------------------------------------------------------------
  // The lockout timer
  // ---------------------------------------------------------------------------

  /** A `Motate::Timeout`: armed or not, and the millisecond at which it expires. */
  datatype Timeout = Timeout(armed: bool, expiry: int)

  const Unarmed := Timeout(false, 0)

  /** `set(ms)` at time `now`. */
  function SetTimeout(now: nat, ms: nat): (t: Timeout)
    ensures t.armed && t.expiry - now == ms
  {
    Timeout(true, now + ms)
  }

  /** `isSet() && !isPast()`: the timer still holds samples off at `now`. */
  predicate Holding(t: Timeout, now: nat)
  {
    t.armed && now < t.expiry
  }

  // ---------------------------------------------------------------------------
  // The input record and its effects
  // ---------------------------------------------------------------------------

  /** `ioDigitalInput`. The interlock entry is not a field: its value is the
      member `trueBool`, initialised true and never assigned, so the entry always
      reads true (see CanWorld.Vote). */
  datatype DigitalInput = DigitalInput(
    pin: Uint16,          // external_pin_num
    mode: IoMode,
    action: InputAction,
    func: InputFunc,      // `function`
    lockoutMs: Uint16,
    state: IoState,
    edge: EdgeFlag,
    homingMode: bool,
    probingMode: bool,
    lockout: Timeout)

  /** The machine-control requests one update can make, in the order it makes them. */
  datatype Effect =
    | Hold                      // cm_start_hold
    | HaltAll                   // cm_halt_all
    | AlarmRaised(pin: Uint16)  // cm_alarm with message "input <pin>"
    | ShutdownRaised(pin: Uint16)
    | PanicRaised(pin: Uint16)
    | HardReset                 // hw_hard_reset
    | EncoderSnapshot           // en_take_encoder_snapshot
    | StatusReport              // sr_request_status_report(SR_REQUEST_TIMED)
    | LimitRequested(pin: Uint16)
    | ShutdownRequested(pin: Uint16)
    | InterlockAdd              // this input's entry added to the safety interlock list
    | InterlockRemove           // ... and removed from it

  /** The result of one update: the new input and the effects, in order. */
  datatype Step = Step(input: DigitalInput, effects: seq<Effect>)

  /** The members the constructor leaves uninitialised. */
  datatype Indeterminate = Indeterminate(state: IoState, edge: EdgeFlag, homing: bool, probing: bool)

  /** The raw level at which an enabled input counts as active:
      a normally-open (active-low) input is active when it reads low. */
  function ActiveLevel(m: IoMode): bool
  {
    m == ActiveHigh
  }

  /** Only the fields an update is allowed to touch differ between `a` and `b`. */
  predicate SameConfig(a: DigitalInput, b: DigitalInput)
  {
    b == a.(state := b.state, edge := b.edge, lockout := b.lockout)
  }

  // ---------------------------------------------------------------------------
  // Operations
  // ---------------------------------------------------------------------------

  /** `ioDigitalInput::reset`. */
  function ResetInput(d: DigitalInput): (r: DigitalInput)
    ensures d.mode == ModeDisabled ==> r.state == StateDisabled && r.lockout == d.lockout
    ensures d.mode != ModeDisabled ==> !r.lockout.armed && r.state == d.state
    ensures r.edge == d.edge && SameConfig(d, r)
  {
    if d.mode == ModeDisabled then d.(state := StateDisabled)
    else d.(lockout := Unarmed)
  }

  /** The `ioDigitalInput` constructor: store the configuration, then `reset()`.
      The timer starts unarmed; state, edge and the two mode flags are whatever
      the object's storage held (`junk`). */
  function NewInput(pin: Uint16, mode: IoMode, action: InputAction, func: InputFunc,
                    lockoutMs: Uint16, junk: Indeterminate): (d: DigitalInput)
    ensures d.pin == pin && d.mode == mode && d.action == action
    ensures d.func == func && d.lockoutMs == lockoutMs
    ensures !d.lockout.armed
    ensures d.homingMode == junk.homing && d.probingMode == junk.probing && d.edge == junk.edge
    ensures d.state == if mode == ModeDisabled then StateDisabled else junk.state
  {
    ResetInput(DigitalInput(pin, mode, action, func, lockoutMs,
                            junk.state, junk.edge, junk.homing, junk.probing, Unarmed))
  }

  /** The constructor with every default argument taken. */
  function DefaultInput(pin: Uint16, junk: Indeterminate): DigitalInput
  {
    NewInput(pin, ModeDisabled, ActionNone, FunctionNone, InputLockoutMs, junk)
  }

  /** `value ^ ((int)mode ^ 1)`: the raw sample corrected for polarity. */
  function Corrected(raw: bool, m: IoMode): (c: int)
    ensures m != ModeDisabled ==> (c == 0 || c == 1) && (c == 1 <==> raw == ActiveLevel(m))
  {
    ((BoolToInt(raw) as bv8) ^ ((ModeCode(m) as bv8) ^ 1)) as int
  }

  /** `(ioState)value_corrected` for the two codes an enabled input produces. */
  function StateOf(c: int): (s: IoState)
    requires c == 0 || c == 1
    ensures StateCode(s) == c
  {
    if c == 1 then Active else Inactive
  }

  /** The actions fired on a leading edge: one independent test per action. */
  function ActionEffects(a: InputAction, pin: Uint16): seq<Effect>
  {
    (if a == Stop then [Hold] else [])
    + (if a == FastStop then [Hold] else [])
    + (if a == Halt then [HaltAll] else [])
    + (if a == Alarm then [AlarmRaised(pin)] else [])
    + (if a == Shutdown then [ShutdownRaised(pin)] else [])
    + (if a == Panic then [PanicRaised(pin)] else [])
    + (if a == Reset then [HardReset] else [])
  }

  /** The function requests for an edge: a chain on the leading edge, the
      interlock release on the trailing edge. */
  function FunctionEffects(f: InputFunc, pin: Uint16, e: EdgeFlag): seq<Effect>
  {
    (if e == Leading then
       (if f == Limit then [LimitRequested(pin)]
        else if f == ShutdownFunction then [ShutdownRequested(pin)]
        else if f == Interlock then [InterlockAdd]
        else [])
     else [])
    + (if e == Trailing && f == Interlock then [InterlockRemove] else [])
  }

  /** The effects of a committed transition of `d` (already updated), by priority:
      homing, then probing, then action and function with a status report. */
  function Dispatch(d: DigitalInput): (r: seq<Effect>)
    ensures d.homingMode ==> (r != [] <==> d.edge == Leading)
    ensures !d.homingMode && d.probingMode ==> r == [EncoderSnapshot, Hold]
    ensures StatusReport in r <==> !d.homingMode && !d.probingMode
    ensures InterlockAdd in r <==> !d.homingMode && !d.probingMode && d.edge == Leading && d.func == Interlock
    ensures InterlockRemove in r <==> !d.homingMode && !d.probingMode && d.edge == Trailing && d.func == Interlock
  {
    if d.homingMode then
      (if d.edge == Leading then [EncoderSnapshot, Hold] else [])
    else if d.probingMode then
      [EncoderSnapshot, Hold]
    else
      (if d.edge == Leading then ActionEffects(d.action, d.pin) else [])
      + FunctionEffects(d.func, d.pin, d.edge)
      + [StatusReport]
  }

  /** The sample at `now` is ignored by the lockout. */
  predicate Held(d: DigitalInput, now: nat)
  {
    d.mode != ModeDisabled && Holding(d.lockout, now)
  }

  /** The sample at `now` commits a state transition. */
  predicate Commits(d: DigitalInput, now: nat, raw: bool)
  {
    d.mode != ModeDisabled && !Holding(d.lockout, now) && StateCode(d.state) != Corrected(raw, d.mode)
  }

  /** `ioDigitalInput::updateValue(raw)` at time `now`. */
  function UpdateValue(d: DigitalInput, now: nat, raw: bool): (r: Step)
    // a disabled input only reports itself disabled
    ensures d.mode == ModeDisabled ==> r.input == d.(state := StateDisabled) && r.effects == []
    // an enabled input that does not commit is left exactly as it was
    ensures d.mode != ModeDisabled && !Commits(d, now, raw) ==> r == Step(d, [])
    // a commit re-arms the lockout and takes the corrected level
    ensures Commits(d, now, raw) ==>
              && r.input.lockout == SetTimeout(now, d.lockoutMs)
              && r.input.state != StateDisabled
              && r.input.state != d.state
              && (r.input.state == Active <==> raw == ActiveLevel(d.mode))
              && (r.input.edge == Leading <==> r.input.state == Active)
              && r.input.edge != EdgeNone
    // configuration and mode flags never change
    ensures SameConfig(d, r.input)
    // a status report is requested exactly by normal-mode commits
    ensures StatusReport in r.effects <==> Commits(d, now, raw) && !d.homingMode && !d.probingMode
  {
    if d.mode == ModeDisabled then Step(d.(state := StateDisabled), [])
    else if Holding(d.lockout, now) then Step(d, [])
    else
      var c := Corrected(raw, d.mode);
      if StateCode(d.state) == c then Step(d, [])
      else
        var d' := d.(lockout := SetTimeout(now, d.lockoutMs),
                     state := StateOf(c),
                     edge := if c == StateCode(Active) then Leading else Trailing);
        Step(d', Dispatch(d'))
  }

  // ---------------------------------------------------------------------------
  // Properties
  // ---------------------------------------------------------------------------

  /** Homing takes priority: a leading edge captures the encoder and holds, a
      trailing edge does nothing, and nothing else is requested. */
  lemma HomingDispatch(d: DigitalInput, now: nat, raw: bool)
    requires Commits(d, now, raw) && d.homingMode
    ensures raw == ActiveLevel(d.mode) ==> UpdateValue(d, now, raw).effects == [EncoderSnapshot, Hold]
    ensures raw != ActiveLevel(d.mode) ==> UpdateValue(d, now, raw).effects == []
  {
  }

  /** In probing mode (and not homing) either edge captures the encoder and holds. */
  lemma ProbingDispatch(d: DigitalInput, now: nat, raw: bool)
    requires Commits(d, now, raw) && !d.homingMode && d.probingMode
    ensures UpdateValue(d, now, raw).effects == [EncoderSnapshot, Hold]
  {
  }

  /** At most one action fires, and each action maps to its request. */
  lemma ActionTable(a: InputAction, pin: Uint16)
    ensures a == ActionNone || a == CycleStart <==> ActionEffects(a, pin) == []
    ensures a == Stop || a == FastStop <==> ActionEffects(a, pin) == [Hold]
    ensures a == Halt <==> ActionEffects(a, pin) == [HaltAll]
    ensures a == Alarm <==> ActionEffects(a, pin) == [AlarmRaised(pin)]
    ensures a == Shutdown <==> ActionEffects(a, pin) == [ShutdownRaised(pin)]
    ensures a == Panic <==> ActionEffects(a, pin) == [PanicRaised(pin)]
    ensures a == Reset <==> ActionEffects(a, pin) == [HardReset]
  {
    var e := ActionEffects(a, pin);
    match a
    case ActionNone =>
    case Stop => assert e[0] == Hold;
    case FastStop => assert e[0] == Hold;
    case Halt => assert e[0] == HaltAll;
    case CycleStart =>
    case Alarm => assert e[0] == AlarmRaised(pin);
    case Shutdown => assert e[0] == ShutdownRaised(pin);
    case Panic => assert e[0] == PanicRaised(pin);
    case Reset => assert e[0] == HardReset;
  }

  /** Normal-mode commits: the action on a leading edge, then the function,
      then exactly one status report at the end. */
  lemma NormalDispatch(d: DigitalInput, now: nat, raw: bool)
    requires Commits(d, now, raw) && !d.homingMode && !d.probingMode
    ensures var r := UpdateValue(d, now, raw);
      if raw == ActiveLevel(d.mode) then
        r.effects == ActionEffects(d.action, d.pin)
                     + FunctionEffects(d.func, d.pin, Leading) + [StatusReport]
      else
        r.effects == FunctionEffects(d.func, d.pin, Trailing) + [StatusReport]
  {
  }

  /** The function table: limit and shutdown record the pin and the interlock
      engages on a leading edge; only the interlock reacts to a trailing edge. */
  lemma FunctionTable(f: InputFunc, pin: Uint16)
    ensures FunctionEffects(f, pin, Leading) ==
      match f
      case Limit => [LimitRequested(pin)]
      case ShutdownFunction => [ShutdownRequested(pin)]
      case Interlock => [InterlockAdd]
      case _ => []
    ensures FunctionEffects(f, pin, Trailing) == if f == Interlock then [InterlockRemove] else []
  {
  }

  /** Feeding the same sample again is a no-op, unless the first one was held off. */
  lemma UpdateIdempotent(d: DigitalInput, t1: nat, t2: nat, raw: bool)
    requires !Held(d, t1)
    requires t1 <= t2
    ensures var r1 := UpdateValue(d, t1, raw);
            UpdateValue(r1.input, t2, raw) == Step(r1.input, [])
  {
  }

  /** After `reset()` the next sample of an enabled input is never held off. */
  lemma ResetReleasesLockout(d: DigitalInput, now: nat, raw: bool)
    requires d.mode != ModeDisabled
    ensures !Held(ResetInput(d), now)
    ensures StateCode(d.state) != Corrected(raw, d.mode) ==> Commits(ResetInput(d), now, raw)
  {
  }

  /** An input built with the default arguments is disabled and stays so. */
  lemma DefaultInputDisabled(pin: Uint16, junk: Indeterminate, now: nat, raw: bool)
    ensures var d := DefaultInput(pin, junk);
            && d.mode == ModeDisabled && d.action == ActionNone && d.func == FunctionNone
            && d.lockoutMs == 10 && d.state == StateDisabled
            && UpdateValue(d, now, raw) == Step(d, [])
  {
  }

  /** For an enabled input the corrected level is active iff the raw level equals
      the mode code (active-low: raw 0, active-high: raw 1). */
  lemma CorrectionAgainstModeCode(raw: bool, m: IoMode)
    requires m != ModeDisabled
    ensures Corrected(raw, m) == StateCode(Active) <==> BoolToInt(raw) == ModeCode(m)
  {
  }

  /** The scenario of a normally-open limit switch with a 10 ms lockout: it fires
      at t=0, a bounce at t=2 is held off, and a sample at t=12 matching the
      committed state changes nothing. */
  lemma LimitSwitchScenario(pin: Uint16)
    ensures var d0 := DigitalInput(pin, ActiveLow, ActionNone, Limit, 10, Inactive,
                                   EdgeNone, false, false, Unarmed);
            var s1 := UpdateValue(d0, 0, false);
            var s2 := UpdateValue(s1.input, 2, true);
            var s3 := UpdateValue(s2.input, 12, false);
            && s1.input.state == Active && s1.effects == [LimitRequested(pin), StatusReport]
            && s2 == Step(s1.input, [])
            && s3 == Step(s1.input, [])
  {
  }

  /** An interlock input released while homing mode is set: the leading edge
      requests the interlock entry, the release during homing requests nothing,
      the next leading edge requests the entry again, and only the release after
      it asks for its removal. */
  lemma HomingSkipsInterlockRelease(pin: Uint16)
    ensures var d0 := DigitalInput(pin, ActiveHigh, ActionNone, Interlock, 10,
                                   Inactive, EdgeNone, false, false, Unarmed);
            var s1 := UpdateValue(d0, 0, true);
            var s2 := UpdateValue(s1.input.(homingMode := true), 20, false);
            var s3 := UpdateValue(s2.input.(homingMode := false), 40, true);
            var s4 := UpdateValue(s3.input, 60, false);
            && s1.effects == [InterlockAdd, StatusReport]
            && s2.effects == [] && s2.input.state == Inactive
            && s3.effects == [InterlockAdd, StatusReport]
            && s4.effects == [InterlockRemove, StatusReport] && s4.input.state == Inactive
  {
    var d0 := DigitalInput(pin, ActiveHigh, ActionNone, Interlock, 10,
                           Inactive, EdgeNone, false, false, Unarmed);
    var s1 := UpdateValue(d0, 0, true);
    NormalDispatch(d0, 0, true);
    var s2 := UpdateValue(s1.input.(homingMode := true), 20, false);
    HomingDispatch(s1.input.(homingMode := true), 20, false);
    var s3 := UpdateValue(s2.input.(homingMode := false), 40, true);
    NormalDispatch(s2.input.(homingMode := false), 40, true);
    NormalDispatch(s3.input, 60, false);
  }
}
