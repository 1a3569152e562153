/** The functions of g2core/gpio.cpp that work on the registry of digital inputs:
    resetting every input, the first-match lookups by external pin number or by
    function, and the configuration setters for mode, action and function. */
module GpioRegistry {
  import opened CInts
  import opened Gpio
  import Registry

  /** The `stat_t` codes these functions return. */
  datatype Status = StatOk | StatInputValueRangeError

  datatype Result<T> = Ok(value: T) | Err(status: Status)

  /** `i` is the first registered input with external pin number `n`. */
  predicate IsFirstWithPin(inputs: seq<DigitalInput>, n: int, i: int)
  {
    && 0 <= i < |inputs|
    && inputs[i].pin == n
    && forall j :: 0 <= j < i ==> inputs[j].pin != n
  }

  /** `i` is the first registered input configured with function `f`. */
  predicate IsFirstWithFunction(inputs: seq<DigitalInput>, f: InputFunc, i: int)
  {
    && 0 <= i < |inputs|
    && inputs[i].func == f
    && forall j :: 0 <= j < i ==> inputs[j].func != f
  }

  /** The first input with a given function is a single position. */
  lemma FirstWithFunctionUnique(inputs: seq<DigitalInput>, f: InputFunc, i: int, k: int)
    requires 0 <= i < |inputs| && inputs[i].func == f
    requires forall j :: 0 <= j < i ==> inputs[j].func != f
    requires IsFirstWithFunction(inputs, f, k)
    ensures i == k
  {
  }

  /** The first input with a given pin is a single position. */
  lemma FirstWithPinUnique(inputs: seq<DigitalInput>, n: int, i: int, k: int)
    requires IsFirstWithPin(inputs, n, i) && IsFirstWithPin(inputs, n, k)
    ensures i == k
  {
  }

  /** The registry lookup of the first input with pin `n`. */
  function FindPin(inputs: seq<DigitalInput>, n: int): (r: Registry.Option<nat>)
    ensures r.Some? ==> IsFirstWithPin(inputs, n, r.value)
    ensures r.None? <==> forall j :: 0 <= j < |inputs| ==> inputs[j].pin != n
  {
    var r := Registry.FirstMatch(inputs, (d: DigitalInput) => d.pin == n);
    assert r.Some? ==> Registry.IsFirstMatch(inputs, (d: DigitalInput) => d.pin == n, r.value);
    r
  }

  /** `inputs_reset`: every registered input is reset, in registry order. */
  function InputsReset(inputs: seq<DigitalInput>): (r: seq<DigitalInput>)
    ensures |r| == |inputs|
    ensures forall i :: 0 <= i < |r| ==> r[i] == ResetInput(inputs[i])
    ensures forall i :: 0 <= i < |r| ==> SameConfig(inputs[i], r[i]) && r[i].edge == inputs[i].edge
    ensures forall i :: 0 <= i < |r| && inputs[i].mode == ModeDisabled ==>
              r[i].state == StateDisabled && r[i].lockout == inputs[i].lockout
    ensures forall i :: 0 <= i < |r| && inputs[i].mode != ModeDisabled ==>
              !r[i].lockout.armed && r[i].state == inputs[i].state
  {
    if |inputs| == 0 then []
    else [ResetInput(inputs[0])] + InputsReset(inputs[1..])
  }

  /** `gpio_set_homing_mode`: pin 0 is ignored; otherwise only the first input
      with that pin has its homing flag changed. */
  function SetHomingMode(inputs: seq<DigitalInput>, n: Uint8, homing: bool): (r: seq<DigitalInput>)
    ensures |r| == |inputs|
    ensures n == 0 ==> r == inputs
    ensures forall i :: 0 <= i < |r| ==>
              r[i] == if n != 0 && IsFirstWithPin(inputs, n, i)
                      then inputs[i].(homingMode := homing) else inputs[i]
  {
    if n == 0 then inputs
    else
      match FindPin(inputs, n)
      case None => inputs
      case Some(i) => inputs[i := inputs[i].(homingMode := homing)]
  }

  /** `gpio_set_probing_mode`: as `gpio_set_homing_mode`, for the probing flag. */
  function SetProbingMode(inputs: seq<DigitalInput>, n: Uint8, probing: bool): (r: seq<DigitalInput>)
    ensures |r| == |inputs|
    ensures n == 0 ==> r == inputs
    ensures forall i :: 0 <= i < |r| ==>
              r[i] == if n != 0 && IsFirstWithPin(inputs, n, i)
                      then inputs[i].(probingMode := probing) else inputs[i]
  {
    if n == 0 then inputs
    else
      match FindPin(inputs, n)
      case None => inputs
      case Some(i) => inputs[i := inputs[i].(probingMode := probing)]
  }

  /** `gpio_get_probing_input`: the pin of the first PROBE input, stored into an
      `int8_t`, or -1 when there is none. */
  function GetProbingInput(inputs: seq<DigitalInput>): (r: Int8)
    ensures (forall j :: 0 <= j < |inputs| ==> inputs[j].func != Probe) ==> r == -1
    ensures forall i :: IsFirstWithFunction(inputs, Probe, i) ==> r == ToInt8(inputs[i].pin)
    ensures forall i :: IsFirstWithFunction(inputs, Probe, i) && inputs[i].pin < 0x80 ==> r == inputs[i].pin
  {
    var claims := (d: DigitalInput) => d.func == Probe;
    match Registry.FirstMatch(inputs, claims)
    case None => -1
    case Some(i) =>
      assert Registry.IsFirstMatch(inputs, claims, i);
      assert forall k :: IsFirstWithFunction(inputs, Probe, k) ==> k == i by {
        forall k | IsFirstWithFunction(inputs, Probe, k) ensures k == i {
          FirstWithFunctionUnique(inputs, Probe, i, k);
        }
      }
      ToInt8(inputs[i].pin)
  }

  /** `gpio_read_input`: the lookup stores the state into a local that is never
      used, and the function returns its own argument converted to `bool`. */
  function ReadInput(inputs: seq<DigitalInput>, n: Uint8): (r: bool)
    ensures r <==> n != 0
  {
    if n == 0 then false
    else
      var _ := FindPin(inputs, n);
      n != 0
  }

  /** The kind `io_get_input` reports its value as. */
  datatype ValueType = TypeBool | TypeNull

  datatype Reading = Reading(value: int, valueType: ValueType)

  /** The type `io_get_input` gives a state: null above 1.1, that is for DISABLED. */
  function ValueTypeOf(s: IoState): (t: ValueType)
    ensures t == TypeNull <==> s == StateDisabled
  {
    if StateCode(s) as real > 1.1 then TypeNull else TypeBool
  }

  /** The lookup part of `io_get_input`, given the number parsed from the token
      (`pinNum` is stored into a `uint8_t` first). */
  function GetInput(inputs: seq<DigitalInput>, pinNum: int): (r: Result<Reading>)
    ensures r.Err? <==> forall j :: 0 <= j < |inputs| ==> inputs[j].pin != ToUint8(pinNum)
    ensures r.Err? ==> r.status == StatInputValueRangeError
    ensures forall i :: IsFirstWithPin(inputs, ToUint8(pinNum), i) ==>
              && r.Ok?
              && r.value.value == StateCode(inputs[i].state)
              && (r.value.valueType == TypeNull <==> inputs[i].state == StateDisabled)
  {
    var pin := ToUint8(pinNum);
    match FindPin(inputs, pin)
    case None => Err(StatInputValueRangeError)
    case Some(i) =>
      var r := Ok(Reading(StateCode(inputs[i].state), ValueTypeOf(inputs[i].state)));
      assert forall k :: IsFirstWithPin(inputs, pin, k) ==> k == i by {
        forall k | IsFirstWithPin(inputs, pin, k) ensures k == i {
          FirstWithPinUnique(inputs, pin, i, k);
        }
      }
      r
  }

  // ---------------------------------------------------------------------------
  // Configuration setters
  // ---------------------------------------------------------------------------

  /** Which member of the target input a configuration write stores into. */
  datatype Setting = ModeSetting | ActionSetting | FunctionSetting

  /** The number of values the member's enumeration defines. */
  function SettingMax(s: Setting): int
  {
    match s
    case ModeSetting => IoModeMax
    case ActionSetting => InputActionMax
    case FunctionSetting => InputFunctionMax
  }

  /** The code currently stored in the member. */
  function SettingCode(d: DigitalInput, s: Setting): int
  {
    match s
    case ModeSetting => ModeCode(d.mode)
    case ActionSetting => ActionCode(d.action)
    case FunctionSetting => FunctionCode(d.func)
  }

  /** `set_ui8`: store code `v` into the member. */
  function Store(d: DigitalInput, s: Setting, v: int): (r: DigitalInput)
    requires 0 <= v < SettingMax(s)
    ensures SettingCode(r, s) == v
    ensures forall t :: t != s ==> SettingCode(r, t) == SettingCode(d, t)
    ensures r.pin == d.pin && r.lockoutMs == d.lockoutMs && r.state == d.state && r.edge == d.edge
    ensures r.homingMode == d.homingMode && r.probingMode == d.probingMode && r.lockout == d.lockout
  {
    match s
    case ModeSetting => d.(mode := ModeOf(v))
    case ActionSetting => d.(action := ActionOf(v))
    case FunctionSetting => d.(func := FunctionOf(v))
  }

  datatype SetResult = SetResult(status: Status, inputs: seq<DigitalInput>)

  /** `_input_set_helper`: reject a value outside [lower, upper) without writing;
      otherwise write it into input `target` and, unless the machine is still
      initializing, reset every registered input. */
  function InputSetHelper(inputs: seq<DigitalInput>, target: nat, s: Setting, v: int,
                          lower: int, upper: int, initializing: bool): (r: SetResult)
    requires target < |inputs|
    requires 0 <= lower && upper <= SettingMax(s)
    ensures r.status == StatInputValueRangeError <==> v < lower || v >= upper
    ensures r.status == StatInputValueRangeError ==> r.inputs == inputs
    ensures r.status == StatOk ==>
              && |r.inputs| == |inputs|
              && SettingCode(r.inputs[target], s) == v
              && (forall t :: t != s ==> SettingCode(r.inputs[target], t) == SettingCode(inputs[target], t))
              && (forall i :: 0 <= i < |inputs| && i != target ==>
                    r.inputs[i] == if initializing then inputs[i] else ResetInput(inputs[i]))
    ensures r.status == StatOk ==>
              r.inputs[target] == if initializing then Store(inputs[target], s, v)
                                  else ResetInput(Store(inputs[target], s, v))
    ensures r.status == StatOk && !initializing ==>
              forall i :: 0 <= i < |inputs| && r.inputs[i].mode != ModeDisabled ==> !r.inputs[i].lockout.armed
  {
    if v < lower || v >= upper then SetResult(StatInputValueRangeError, inputs)
    else
      var written := inputs[target := Store(inputs[target], s, v)];
      if initializing then SetResult(StatOk, written)
      else SetResult(StatOk, InputsReset(written))
  }

  /** `io_set_mo`: modes 0 (active low) to 2 (disabled). */
  function SetMode(inputs: seq<DigitalInput>, target: nat, v: int, initializing: bool): (r: SetResult)
    requires target < |inputs|
    ensures |r.inputs| == |inputs|
    ensures r.status == StatOk <==> 0 <= v < 3
    ensures r.status == StatOk ==> r.inputs[target].mode == ModeOf(v)
    ensures r.status == StatOk && v == ModeCode(ModeDisabled) && !initializing ==>
              r.inputs[target].state == StateDisabled
  {
    InputSetHelper(inputs, target, ModeSetting, v, ModeCode(ActiveLow), IoModeMax, initializing)
  }

  /** `io_set_ac`: actions 0 (none) to 8 (reset). */
  function SetAction(inputs: seq<DigitalInput>, target: nat, v: int, initializing: bool): (r: SetResult)
    requires target < |inputs|
    ensures |r.inputs| == |inputs|
    ensures r.status == StatOk <==> 0 <= v < 9
    ensures r.status == StatOk ==> r.inputs[target].action == ActionOf(v)
  {
    InputSetHelper(inputs, target, ActionSetting, v, ActionCode(ActionNone), InputActionMax, initializing)
  }

  /** `io_set_fn`: functions 0 (none) to 5 (tool height setter). */
  function SetFunction(inputs: seq<DigitalInput>, target: nat, v: int, initializing: bool): (r: SetResult)
    requires target < |inputs|
    ensures |r.inputs| == |inputs|
    ensures r.status == StatOk <==> 0 <= v < 6
    ensures r.status == StatOk ==> r.inputs[target].func == FunctionOf(v)
  {
    InputSetHelper(inputs, target, FunctionSetting, v, FunctionCode(FunctionNone), InputFunctionMax, initializing)
  }

  // ---------------------------------------------------------------------------
  // Properties
  // ---------------------------------------------------------------------------

  /** `gpio_read_input` reports an input active even when its state is inactive. */
  lemma ReadInputIgnoresState(d: DigitalInput)
    requires 0 < d.pin < 0x100 && d.state == Inactive
    ensures ReadInput([d], d.pin)
  {
  }

  /** A registry whose only probe input is on pin 255 reports "no probe input":
      the `int8_t` result wraps 255 to -1. */
  lemma ProbingPinWraps(d: DigitalInput)
    requires d.func == Probe && d.pin == 255
    ensures GetProbingInput([d]) == -1
  {
    assert IsFirstWithFunction([d], Probe, 0);
  }

  /** Setting a homing flag twice keeps only the second value: the flag writes
      change no pin, so both searches stop at the same input. */
  lemma HomingModeLastWriteWins(inputs: seq<DigitalInput>, n: Uint8, a: bool, b: bool)
    ensures SetHomingMode(SetHomingMode(inputs, n, a), n, b) == SetHomingMode(inputs, n, b)
  {
    var r1 := SetHomingMode(inputs, n, a);
    assert forall i :: 0 <= i < |inputs| ==> r1[i].pin == inputs[i].pin;
    assert forall i :: IsFirstWithPin(r1, n, i) <==> IsFirstWithPin(inputs, n, i);
  }

  /** Resetting all inputs twice is the same as resetting them once. */
  lemma {:induction false} InputsResetIdempotent(inputs: seq<DigitalInput>)
    ensures InputsReset(InputsReset(inputs)) == InputsReset(inputs)
  {
    if |inputs| > 0 {
      var r := InputsReset(inputs);
      assert r[1..] == InputsReset(inputs[1..]);
      InputsResetIdempotent(inputs[1..]);
    }
  }
}
