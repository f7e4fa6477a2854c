# Thermostat accessory model

This project models `ThermostatAccessory`, the one stateful component of a Homebridge plugin.
The plugin exposes a single heater to HomeKit. The model covers:

- The set-point is kept within [10, 35] °C by clamping.
- A remote sensor answers an HTTP GET with the body `"<temperature>,<humidity>"`. Its reading is cached for 2000 ms.
- Every tick, a remote motor is sent `H` or `L` by a bang-bang rule with a 0.5 °C dead-band around the set-point.

The model has two modules:

- `JsRuntime` (`js_runtime.dfy`) covers the JavaScript run time the accessory depends on:
  - `JsValue`, the value a `number` field holds at run time: a finite number (an exact real), `+Infinity`, `-Infinity`, `NaN` or `undefined`;
  - subtraction `Sub` and the predicates `AtLeast` (`>=`), `AtMost` (`<=`) and `IsZero` (`=== 0`) on these values. Together they model the tests at src/platformAccessory.ts:116, 129, 204 and 207;
  - `String.prototype.split` with a one-character separator, and its inverse `Array.prototype.join`.
- `PlatformAccessory` (`platform_accessory.dfy`) covers the accessory. It contains:
  - the class `ThermostatAccessory` with the source's six fields;
  - the pure decision function `NextMotorState`, which the tick calls;
  - the cache-refresh function `Refresh`, which specifies `getCurrentState`;
  - lemmas about runs of ticks and runs of sensor calls.

Inputs that come from outside the process are parameters:

- the current time (`now`, in milliseconds);
- the outcome of the sensor GET (`FetchOutcome`: `Failure` or `Success(body)`);
- the string-to-number conversion `Number` (`number: string -> JsValue`).

Outputs to the outside are return values:

- whether a sensor GET was issued (`requested`);
- the motor state the POST sends (`command`).

Behaviour the model keeps from the code as written:

- **The active flag does not stop heating.** `updateMotorStatus` first sets `L` for an inactive device. Then the rule `diff >= 0.5` overwrites it with `H`. So an inactive device below the band still heats. `NextMotorState` and `InactiveDeviceStillHeats` state this. Deactivating the device therefore does not force LOW.
- **A body without a comma leaves humidity `undefined`.** The destructuring `[temperature, humidity]` of a one-element array does this.
- **A non-numeric reading makes `diff` NaN.** Both comparisons are then false, so the decision is the dead-band one.
- **An infinite reading decides the motor outright.** `Number` gives `Infinity` for `"Infinity"` or for a decimal too large for a double. A reading of `+Infinity` gives `L`; a reading of `-Infinity` gives `H`, even for an inactive device.
- **The POST is sent on every tick**, whether or not the state changed.
- **`isActive` holds HomeKit's 0/1 value.** `setActive` stores it through a TypeScript-only cast. Every use tests it for truthiness, so the model stores `value != 0`.

## Model

| member | source | states |
|---|---|---|
| `JsRuntime.Split` | src/platformAccessory.ts:94 | `data.split(',')` has at least one piece, no piece contains the separator, and joining the pieces with the separator gives back the input |
| `JsRuntime.SplitWithoutSeparator` | src/platformAccessory.ts:94 | a body without a comma splits into itself alone |
| `JsRuntime.SplitAfterField` | src/platformAccessory.ts:94 | a separator-free prefix followed by the separator becomes the first piece, and the rest splits on its own |
| `JsRuntime.SplitJoin` | src/platformAccessory.ts:94 | splitting a join of separator-free pieces gives back exactly those pieces |
| `JsRuntime.SplitHasSecondPiece` | src/platformAccessory.ts:94 | the split has a second piece exactly when the body contains the separator |
| `JsRuntime.Sub` | src/platformAccessory.ts:203 | `targetTemp - currentTemp` is a finite number exactly when the reading is one, and then it is the exact difference; an infinite reading gives the opposite infinity; a NaN or undefined reading gives NaN |
| `PlatformAccessory.ClampTarget` | src/platformAccessory.ts:177-185 | the stored set-point is in [10, 35] and equals the request when the request is in range; it is 10 below the range and 35 above it; no point of the range is nearer to the request |
| `PlatformAccessory.ClampTargetIdempotent` | src/platformAccessory.ts:177-185 | clamping a stored set-point again changes nothing |
| `PlatformAccessory.NextMotorState` | src/platformAccessory.ts:197-209 | diff >= 0.5 gives H whether or not the device is active; diff <= -0.5 gives L; in the dead-band, or when diff is NaN, an active device keeps its state and an inactive one gets L; a change to H happens only when heat is called for, and a change to L only on overshoot or inactivity |
| `PlatformAccessory.InactiveDeviceStillHeats` | src/platformAccessory.ts:199-206 | when heat is called for, an inactive device is driven H, the same decision as for an active one |
| `PlatformAccessory.NonNumericReadingHoldsState` | src/platformAccessory.ts:94-96 | a NaN or undefined reading makes diff NaN, so an active device holds its state and an inactive one gets L |
| `PlatformAccessory.InfiniteReadingDecides` | src/platformAccessory.ts:203-209 | a reading of +Infinity gives L and a reading of -Infinity gives H, whatever the previous state and the active flag |
| `PlatformAccessory.MotorTrace` | src/platformAccessory.ts:73 | a run of periodic ticks yields one motor state per tick |
| `PlatformAccessory.MotorTraceStep` | src/platformAccessory.ts:197-209 | each state in a run of ticks is the decision taken from the previous state and that tick's active flag and diff |
| `PlatformAccessory.DeadBandHoldsState` | src/platformAccessory.ts:197-209 | while the device is active and diff stays inside the dead-band, every tick leaves the motor in the state it had before the run (no chattering) |
| `PlatformAccessory.SwitchesOnlyAcrossTheBand` | src/platformAccessory.ts:197-209 | within a run, including its first tick compared with the state before the run, the motor switches to H only at a tick that calls for heat, and to L only at an overshoot or while inactive |
| `PlatformAccessory.ParseSensorBody` | src/platformAccessory.ts:93-97 | temperature is the parsed first comma field; a body without a comma gives the parsed whole body and an undefined humidity; otherwise humidity is the parsed second field |
| `PlatformAccessory.ParseFirstTwoFields` | src/platformAccessory.ts:94-97 | for a body `a,b` or `a,b,...` with comma-free `a` and `b`, the readings are `number(a)` and `number(b)`, and later fields are ignored |
| `PlatformAccessory.Refresh` | src/platformAccessory.ts:80-111 | a cache younger than 2000 ms is returned unchanged; otherwise the timestamp becomes `now`, which is later than before; a failed fetch keeps both readings; a successful one stores the parsed body; the cache is fresh at `now` afterwards |
| `PlatformAccessory.RefreshIdempotent` | src/platformAccessory.ts:82-87 | a second call at the same instant issues no GET and changes nothing, whatever the sensor would answer |
| `PlatformAccessory.SensorRequests` | src/platformAccessory.ts:82-92 | a run of calls issues at most one GET per call, each at the clock reading of one of the calls; the first call issues one when it finds the cache 2000 ms old or older; no GET is issued while every call is within 2000 ms of the cache's timestamp |
| `PlatformAccessory.RequestsAreSpaced` | src/platformAccessory.ts:82-109 | in any run of calls, each sensor GET comes at least 2000 ms after the previous one, and the first comes at least 2000 ms after the cache's timestamp; this holds whatever the clock does and whether fetches fail |
| `PlatformAccessory.ThermostatAccessory.constructor` | src/platformAccessory.ts:11-16 | readings start at 0, the set-point at 22, inactive, motor L, timestamp 0; the set-point invariant holds (the timestamp field is declared at line 78) |
| `PlatformAccessory.ThermostatAccessory.GetCurrentState` | src/platformAccessory.ts:79-112 | the new cache is `Refresh` of the old one; a GET is issued exactly when the cache is 2000 ms old or older; the returned pair is the stored readings |
| `PlatformAccessory.ThermostatAccessory.GetCurrentTemperature` | src/platformAccessory.ts:114-124 | refreshes, as `getCurrentState` does, only when the temperature is exactly 0, and otherwise changes nothing and issues no GET; returns the stored temperature |
| `PlatformAccessory.ThermostatAccessory.GetCurrentHumidity` | src/platformAccessory.ts:126-137 | refreshes only when the humidity is exactly 0, and otherwise changes nothing and issues no GET; returns the stored humidity |
| `PlatformAccessory.ThermostatAccessory.SetActive` | src/platformAccessory.ts:139-144 | the device is active exactly when the HomeKit value is non-zero; nothing else changes |
| `PlatformAccessory.ThermostatAccessory.GetActive` | src/platformAccessory.ts:146-149 | returns 1 exactly when active, and 0 otherwise |
| `PlatformAccessory.ThermostatAccessory.GetCurrentHeaterCoolerState` | src/platformAccessory.ts:151-161 | HEATING exactly when active, INACTIVE exactly when not |
| `PlatformAccessory.ThermostatAccessory.GetTargetHeaterCoolerState` | src/platformAccessory.ts:168-172 | always HEAT, whose code is in the valid values the characteristic declares at line 56 |
| `PlatformAccessory.ThermostatAccessory.SetTargetTemperature` | src/platformAccessory.ts:174-188 | the set-point becomes `ClampTarget(value)`, so it stays in [10, 35]; nothing else changes |
| `PlatformAccessory.ThermostatAccessory.GetTargetTemperature` | src/platformAccessory.ts:222-225 | returns the stored set-point, which lies in [10, 35] |
| `PlatformAccessory.ThermostatAccessory.UpdateMotorStatus` | src/platformAccessory.ts:190-220 | the cache is refreshed as by `getCurrentState`; the new motor state is `NextMotorState` of the previous state, the active flag and `targetTemp - currentTemp` taken from the refreshed reading; the command sent is that state, on every tick; the set-point and the active flag are unchanged |

The predicate `PlatformAccessory.RequestDue` models the stale-cache test at src/platformAccessory.ts:82. A call issues a GET exactly when the predicate holds. `Refresh`, `SensorRequests` and the class methods all use it.

The method `PlatformAccessory.TicksFollowMotorTrace` is a client of the class. It checks that two consecutive `UpdateMotorStatus` calls send exactly the commands `MotorTrace` gives for the active flag and the two diffs those ticks see. This ties the lemmas about runs of ticks to the class.

The method `PlatformAccessory.HeatingCycle` is also a client of the class. It runs an active device with set-point 22 through a sequence of readings:

- 21.0 heats;
- a call within 2000 ms issues no GET;
- 22.2 keeps heating;
- 22.6 stops heating;
- a failed fetch keeps the readings.

## Left out

- The HTTP calls (src/platformAccessory.ts:92-93, 214) are network I/O. A sensor GET is the input `FetchOutcome`, and the motor POST is the returned `command`.
- Failures of the motor POST are only logged, and the motor state in memory is updated regardless. The model therefore has no POST outcome.
- `Number(...)` (src/platformAccessory.ts:94) is floating-point text parsing. It is the abstract parameter `number`. `String.prototype.split` is modelled exactly.
- Temperatures are exact reals. IEEE-754 rounding of `targetTemp - currentTemp` is not modelled.
- `SetTargetTemperature` takes a real. A non-numeric `CharacteristicValue` is excluded. The host validates the value against the characteristic's numeric props before calling the setter.
- `setTargetHeaterCoolerState` (src/platformAccessory.ts:163-166) has no counterpart, because it only logs and changes no state.
- The timer (src/platformAccessory.ts:72-73) is not modelled. This covers the first tick the constructor starts and the 5000 ms `setInterval`. Each tick is one sequential call of `UpdateMotorStatus`, and a run of ticks is `MotorTrace`.
- Overlapping asynchronous calls are not modelled. Two calls can both see a stale cache and both fetch. The model runs calls one after another.
- The constructor's characteristic registration and props (src/platformAccessory.ts:18-76) are not modelled. This includes the minimum step of 0.1, which is only declared to HomeKit and never enforced by the accessory.
- The `updateCharacteristic` pushes (src/platformAccessory.ts:194-195) are host notifications, so they are not modelled. All logging is left out.
- src/platform.ts, src/settings.ts and src/index.ts cover plugin registration, device discovery with a hard-coded device, and the defaults of `motorIp` and `sensorIp`. They are not part of this model, and neither are the compiled duplicates under dist/.
