/** The thermostat accessory: a HomeKit heater whose set-point is clamped to
    [10, 35] degrees, whose temperature and humidity come from a sensor that
    answers an HTTP GET with "<temperature>,<humidity>", cached for two
    seconds, and whose heater motor is driven 'H' or 'L' by a bang-bang rule
    with a 0.5 degree dead-band around the set-point.

    Network calls are inputs: a sensor fetch is a `FetchOutcome`, the number
    parser `Number` is the parameter `number`, and the motor POST is the
    command a tick returns. */
module PlatformAccessory {
  import opened JsRuntime

  const MinTemperature: real := 10.0
  const MaxTemperature: real := 35.0
  const DefaultTargetTemperature: real := 22.0

  /** Half-width of the dead-band around the set-point. */
  const HalfBand: real := 0.5

  /** A cached reading younger than this (in milliseconds) is served without a fetch. */
  const FreshnessWindowMs: int := 2000

  /** The heater motor's two states, sent as the path of the POST. */
  datatype Motor = H | L

  /** HomeKit's CurrentHeaterCoolerState characteristic. */
  datatype CurrentHeaterCoolerState = Inactive | Idle | Heating | Cooling {
    function Code(): int {
      match this
      case Inactive => 0
      case Idle => 1
      case Heating => 2
      case Cooling => 3
    }
  }

  /** HomeKit's TargetHeaterCoolerState characteristic. */
  datatype TargetHeaterCoolerState = Auto | Heat | Cool {
    function Code(): int {
      match this
      case Auto => 0
      case Heat => 1
      case Cool => 2
    }
  }

  /** The only target mode the accessory declares valid (heating only). */
  const TargetStateValidValues: seq<int> := [1]

  // ---------------------------------------------------------------------
  // Set-point clamping

  function MinOf(a: real, b: real): real { if a <= b then a else b }

  function MaxOf(a: real, b: real): real { if a <= b then b else a }

  function Distance(a: real, b: real): real { if a <= b then b - a else a - b }

  /** The set-point stored for a requested temperature: the point of
      [MinTemperature, MaxTemperature] nearest to it. */
  function ClampTarget(t: real): (r: real)
    ensures MinTemperature <= r <= MaxTemperature
    ensures MinTemperature <= t <= MaxTemperature ==> r == t
    ensures t < MinTemperature ==> r == MinTemperature
    ensures t > MaxTemperature ==> r == MaxTemperature
    ensures forall x :: MinTemperature <= x <= MaxTemperature ==> Distance(r, t) <= Distance(x, t)
  {
    MaxOf(MinTemperature, MinOf(MaxTemperature, t))
  }

  /** Clamping an already stored set-point changes nothing. */
  lemma ClampTargetIdempotent(t: real)
    ensures ClampTarget(ClampTarget(t)) == ClampTarget(t)
  {
  }

  // ---------------------------------------------------------------------
  // The heater decision

  /** `diff = targetTemp - currentTemp` asks for heat. */
  predicate CallsForHeat(diff: JsValue) { AtLeast(diff, HalfBand) }

  /** `diff` says the room is above the set-point by the band or more. */
  predicate Overshoot(diff: JsValue) { AtMost(diff, -HalfBand) }

  /** Neither rule fires: diff is finite with |diff| < 0.5, or diff is NaN. */
  predicate InDeadBand(diff: JsValue) { !CallsForHeat(diff) && !Overshoot(diff) }

  /** The motor state after a tick, from the state before it, the active flag
      and `diff`, in the order the accessory assigns it: an inactive device
      is set to L first, then diff >= 0.5 sets H and diff <= -0.5 sets L, each
      overriding what came before. */
  function NextMotorState(prev: Motor, active: bool, diff: JsValue): (next: Motor)
    ensures CallsForHeat(diff) ==> next == H
    ensures Overshoot(diff) ==> next == L
    ensures InDeadBand(diff) ==> next == (if active then prev else L)
    ensures next != prev ==>
              (next == H && CallsForHeat(diff)) || (next == L && (Overshoot(diff) || !active))
  {
    var afterActive := if !active then L else prev;
    var afterHeat := if CallsForHeat(diff) then H else afterActive;
    if Overshoot(diff) then L else afterHeat
  }

  /** The active flag does not stop heating: below the band an inactive
      device is driven H just like an active one. */
  lemma InactiveDeviceStillHeats(prev: Motor, diff: JsValue)
    requires CallsForHeat(diff)
    ensures NextMotorState(prev, false, diff) == H
    ensures NextMotorState(prev, false, diff) == NextMotorState(prev, true, diff)
  {
  }

  /** A NaN or undefined reading makes diff NaN, so the decision is the
      dead-band one: an active device holds its state, an inactive one gets L. */
  lemma NonNumericReadingHoldsState(prev: Motor, active: bool, target: real, reading: JsValue)
    requires reading.NaN? || reading.Undefined?
    ensures Sub(target, reading).NaN?
    ensures NextMotorState(prev, active, Sub(target, reading)) == (if active then prev else L)
  {
  }

  /** An infinite reading decides the motor outright: +Infinity makes diff
      -Infinity and gives L, -Infinity makes diff +Infinity and gives H, even
      for an inactive device. */
  lemma InfiniteReadingDecides(prev: Motor, active: bool, target: real)
    ensures NextMotorState(prev, active, Sub(target, PosInf)) == L
    ensures NextMotorState(prev, active, Sub(target, NegInf)) == H
  {
  }

  /** What one periodic tick sees: the active flag and diff at that moment. */
  datatype Tick = Tick(active: bool, diff: JsValue)

  /** The motor states produced by a run of ticks starting from `prev`. */
  function MotorTrace(prev: Motor, ticks: seq<Tick>): (states: seq<Motor>)
    ensures |states| == |ticks|
    decreases |ticks|
  {
    if ticks == [] then []
    else
      var next := NextMotorState(prev, ticks[0].active, ticks[0].diff);
      [next] + MotorTrace(next, ticks[1..])
  }

  /** Each state of a run is the decision taken from the state before it. */
  lemma {:induction false} MotorTraceStep(prev: Motor, ticks: seq<Tick>, i: nat)
    requires i < |ticks|
    ensures MotorTrace(prev, ticks)[i]
            == NextMotorState(if i == 0 then prev else MotorTrace(prev, ticks)[i - 1],
                              ticks[i].active, ticks[i].diff)
    decreases i
  {
    if i > 0 {
      var next := NextMotorState(prev, ticks[0].active, ticks[0].diff);
      MotorTraceStep(next, ticks[1..], i - 1);
    }
  }

  /** No chattering: while the device is active and diff stays inside the
      dead-band, the motor keeps the state it had before the run. */
  lemma {:induction false} DeadBandHoldsState(prev: Motor, ticks: seq<Tick>)
    requires forall i :: 0 <= i < |ticks| ==> ticks[i].active && InDeadBand(ticks[i].diff)
    ensures forall i :: 0 <= i < |ticks| ==> MotorTrace(prev, ticks)[i] == prev
    decreases |ticks|
  {
    if ticks != [] {
      DeadBandHoldsState(prev, ticks[1..]);
    }
  }

  /** In a run, the motor switches on only at a tick that calls for heat, and
      switches off only at an overshoot or while the device is inactive; the
      first tick is compared with the state before the run. */
  lemma SwitchesOnlyAcrossTheBand(prev: Motor, ticks: seq<Tick>, i: nat)
    requires i < |ticks|
    ensures var states := MotorTrace(prev, ticks);
            var before := if i == 0 then prev else states[i - 1];
            states[i] != before ==>
              (states[i] == H && CallsForHeat(ticks[i].diff)) ||
              (states[i] == L && (Overshoot(ticks[i].diff) || !ticks[i].active))
  {
    MotorTraceStep(prev, ticks, i);
  }

  // ---------------------------------------------------------------------
  // The sensor cache

  /** The pair `getCurrentState` returns. */
  datatype SensorState = SensorState(temperature: JsValue, humidity: JsValue)

  /** Outcome of the sensor GET: the request or reading its body failed, or
      the body text. */
  datatype FetchOutcome = Failure | Success(body: string)

  /** The readings a sensor body yields: the body is cut at every comma, the
      first piece is parsed as the temperature and the second, when there is
      one, as the humidity; a body without a comma leaves humidity undefined. */
  function ParseSensorBody(body: string, number: string -> JsValue): (r: SensorState)
    ensures r.temperature == number(Split(body, ',')[0])
    ensures ',' !in body ==> r == SensorState(number(body), Undefined)
    ensures ',' in body ==> r.humidity == number(Split(body, ',')[1])
  {
    var fields := Split(body, ',');
    SplitHasSecondPiece(body, ',');
    SensorState(number(fields[0]), if |fields| >= 2 then number(fields[1]) else Undefined)
  }

  /** The first two comma-separated fields become temperature and humidity;
      anything after a second comma is ignored. */
  lemma ParseFirstTwoFields(a: string, b: string, tail: string, number: string -> JsValue)
    requires ',' !in a && ',' !in b
    requires tail == [] || tail[0] == ','
    ensures ParseSensorBody(a + [','] + b + tail, number) == SensorState(number(a), number(b))
  {
    assert a + [','] + b + tail == a + [','] + (b + tail);
    SplitAfterField(a, ',', b + tail);
    if tail == [] {
      assert b + tail == b;
      SplitWithoutSeparator(b, ',');
    } else {
      assert b + tail == b + [','] + tail[1..];
      SplitAfterField(b, ',', tail[1..]);
    }
  }

  /** The cached part of the accessory's state. */
  datatype Readings = Readings(temperature: JsValue, humidity: JsValue, lastUpdatedAt: int) {
    function Sensor(): SensorState { SensorState(temperature, humidity) }
  }

  /** A call at `now` fetches from the sensor: the cache is 2000 ms old or older. */
  predicate RequestDue(cache: Readings, now: int) {
    now - cache.lastUpdatedAt >= FreshnessWindowMs
  }

  /** The cache after `getCurrentState` is called at `now`. */
  function Refresh(cache: Readings, now: int, fetch: FetchOutcome, number: string -> JsValue): (r: Readings)
    ensures !RequestDue(cache, now) ==> r == cache
    ensures RequestDue(cache, now) ==> r.lastUpdatedAt == now > cache.lastUpdatedAt
    ensures !RequestDue(r, now)
    ensures fetch.Failure? ==> r.Sensor() == cache.Sensor()
    ensures RequestDue(cache, now) && fetch.Success? ==> r.Sensor() == ParseSensorBody(fetch.body, number)
  {
    if !RequestDue(cache, now) then cache
    else
      var fetched := if fetch.Success? then ParseSensorBody(fetch.body, number) else cache.Sensor();
      Readings(fetched.temperature, fetched.humidity, now)
  }

  /** A second call at the same instant neither fetches nor changes the cache. */
  lemma RefreshIdempotent(cache: Readings, now: int, first: FetchOutcome, second: FetchOutcome,
                          number: string -> JsValue)
    ensures var once := Refresh(cache, now, first, number);
            !RequestDue(once, now) && Refresh(once, now, second, number) == once
  {
  }

  /** One call of `getCurrentState`: its clock reading and what the sensor would answer. */
  datatype Call = Call(now: int, fetch: FetchOutcome)

  /** The clock readings at which a run of calls issues a sensor GET: at most
      one per call, each the clock reading of one of the calls, and the first
      call's own reading when that call finds the cache stale, and none at
      all while every call is within 2000 ms of the cache's timestamp. */
  function SensorRequests(cache: Readings, calls: seq<Call>, number: string -> JsValue): (times: seq<int>)
    ensures |times| <= |calls|
    ensures forall i :: 0 <= i < |times| ==> exists j :: 0 <= j < |calls| && calls[j].now == times[i]
    ensures calls != [] && RequestDue(cache, calls[0].now) ==> times != [] && times[0] == calls[0].now
    ensures (forall j :: 0 <= j < |calls| ==> !RequestDue(cache, calls[j].now)) ==> times == []
    decreases |calls|
  {
    if calls == [] then []
    else
      var next := Refresh(cache, calls[0].now, calls[0].fetch, number);
      (if RequestDue(cache, calls[0].now) then [calls[0].now] else [])
        + SensorRequests(next, calls[1..], number)
  }

  /** The debounce bounds the request rate: whatever the clock does and
      whether fetches fail, every sensor GET comes at least 2000 ms after the
      one before it (and after the cache's timestamp for the first). */
  lemma {:induction false} RequestsAreSpaced(cache: Readings, calls: seq<Call>, number: string -> JsValue)
    ensures var times := SensorRequests(cache, calls, number);
            (|times| > 0 ==> times[0] - cache.lastUpdatedAt >= FreshnessWindowMs) &&
            forall i :: 0 < i < |times| ==> times[i] - times[i - 1] >= FreshnessWindowMs
    decreases |calls|
  {
    if calls != [] {
      var next := Refresh(cache, calls[0].now, calls[0].fetch, number);
      RequestsAreSpaced(next, calls[1..], number);
      var rest := SensorRequests(next, calls[1..], number);
      if RequestDue(cache, calls[0].now) {
        assert SensorRequests(cache, calls, number) == [calls[0].now] + rest;
      } else {
        assert next == cache;
        assert SensorRequests(cache, calls, number) == rest;
      }
    }
  }

  // ---------------------------------------------------------------------
  // The accessory

  class ThermostatAccessory {
    var currentTemp: JsValue
    var currentHumidity: JsValue
    var targetTemp: real
    var isActive: bool
    var motorState: Motor
    var lastUpdatedAt: int

    /** The set-point stays within the range the characteristic declares. */
    ghost predicate Valid()
      reads this
    {
      MinTemperature <= targetTemp <= MaxTemperature
    }

    /** The cached readings and their timestamp. */
    function Cache(): Readings
      reads this
    {
      Readings(currentTemp, currentHumidity, lastUpdatedAt)
    }

    /** A fresh accessory: readings 0 ("not yet read"), set-point 22,
        inactive, motor L, never refreshed. */
    constructor ()
      ensures Valid()
      ensures currentTemp == Num(0.0) && currentHumidity == Num(0.0)
      ensures targetTemp == DefaultTargetTemperature && !isActive
      ensures motorState == L && lastUpdatedAt == 0
    {
      currentTemp := Num(0.0);
      currentHumidity := Num(0.0);
      targetTemp := DefaultTargetTemperature;
      isActive := false;
      motorState := L;
      lastUpdatedAt := 0;
    }

    /** `getCurrentState` at clock reading `now`; `requested` tells whether
        the sensor GET was issued (its answer is `fetch`). */
    method GetCurrentState(now: int, fetch: FetchOutcome, number: string -> JsValue)
      returns (state: SensorState, requested: bool)
      modifies this`currentTemp, this`currentHumidity, this`lastUpdatedAt
      ensures Cache() == Refresh(old(Cache()), now, fetch, number)
      ensures requested == RequestDue(old(Cache()), now)
      ensures state == Cache().Sensor()
    {
      if now - lastUpdatedAt < FreshnessWindowMs {
        return SensorState(currentTemp, currentHumidity), false;
      }
      requested := true;
      if fetch.Success? {
        var parsed := ParseSensorBody(fetch.body, number);
        currentTemp := parsed.temperature;
        currentHumidity := parsed.humidity;
      }
      state := SensorState(currentTemp, currentHumidity);
      lastUpdatedAt := now;
    }

    /** `getCurrentTemperature`: refreshes only while the reading is exactly 0. */
    method GetCurrentTemperature(now: int, fetch: FetchOutcome, number: string -> JsValue)
      returns (temperature: JsValue, requested: bool)
      modifies this`currentTemp, this`currentHumidity, this`lastUpdatedAt
      ensures !IsZero(old(currentTemp)) ==> Cache() == old(Cache()) && !requested
      ensures IsZero(old(currentTemp)) ==>
                Cache() == Refresh(old(Cache()), now, fetch, number) &&
                requested == RequestDue(old(Cache()), now)
      ensures temperature == currentTemp
    {
      requested := false;
      if IsZero(currentTemp) {
        var _, r := GetCurrentState(now, fetch, number);
        requested := r;
      }
      temperature := currentTemp;
    }

    /** `getCurrentHumidity`: refreshes only while the reading is exactly 0. */
    method GetCurrentHumidity(now: int, fetch: FetchOutcome, number: string -> JsValue)
      returns (humidity: JsValue, requested: bool)
      modifies this`currentTemp, this`currentHumidity, this`lastUpdatedAt
      ensures !IsZero(old(currentHumidity)) ==> Cache() == old(Cache()) && !requested
      ensures IsZero(old(currentHumidity)) ==>
                Cache() == Refresh(old(Cache()), now, fetch, number) &&
                requested == RequestDue(old(Cache()), now)
      ensures humidity == currentHumidity
    {
      requested := false;
      if IsZero(currentHumidity) {
        var _, r := GetCurrentState(now, fetch, number);
        requested := r;
      }
      humidity := currentHumidity;
    }

    /** `setActive` with HomeKit's Active value (1 active, 0 inactive); the
        accessory only ever tests the stored value for truthiness. */
    method SetActive(value: int)
      modifies this`isActive
      ensures isActive == (value != 0)
    {
      isActive := value != 0;
    }

    /** `getActive`: 1 exactly when the device is active, 0 otherwise. */
    method GetActive() returns (value: int)
      ensures value == 0 || value == 1
      ensures value == 1 <==> isActive
    {
      value := if isActive then 1 else 0;
    }

    /** `getCurrentHeaterCoolerState`: heating exactly when active, which
        ignores whether the motor is actually H. */
    method GetCurrentHeaterCoolerState() returns (state: CurrentHeaterCoolerState)
      ensures state == Heating <==> isActive
      ensures state == Inactive <==> !isActive
    {
      if isActive {
        state := Heating;
      } else {
        state := Inactive;
      }
    }

    /** `getTargetHeaterCoolerState`: always heat, the one mode the
        characteristic declares valid. */
    method GetTargetHeaterCoolerState() returns (state: TargetHeaterCoolerState)
      ensures state == Heat
      ensures state.Code() in TargetStateValidValues
    {
      state := Heat;
    }

    /** `setTargetTemperature`: out-of-range requests are clamped, not refused. */
    method SetTargetTemperature(value: real)
      modifies this`targetTemp
      ensures Valid()
      ensures targetTemp == ClampTarget(value)
    {
      if value < MinTemperature {
        targetTemp := MinTemperature;
      } else if value > MaxTemperature {
        targetTemp := MaxTemperature;
      } else {
        targetTemp := value;
      }
    }

    /** `getTargetTemperature`: the stored set-point, always within range. */
    method GetTargetTemperature() returns (temperature: real)
      requires Valid()
      ensures temperature == targetTemp
      ensures MinTemperature <= temperature <= MaxTemperature
    {
      temperature := targetTemp;
    }

    /** One tick of `updateMotorStatus`: refresh the cache, decide the motor
        state from the refreshed temperature, and return the state the POST
        sends, which is sent on every tick, changed or not. */
    method UpdateMotorStatus(now: int, fetch: FetchOutcome, number: string -> JsValue)
      returns (command: Motor, requested: bool)
      modifies this`currentTemp, this`currentHumidity, this`lastUpdatedAt, this`motorState
      ensures Cache() == Refresh(old(Cache()), now, fetch, number)
      ensures requested == RequestDue(old(Cache()), now)
      ensures motorState == NextMotorState(old(motorState), isActive, Sub(targetTemp, currentTemp))
      ensures command == motorState
      ensures targetTemp == old(targetTemp) && isActive == old(isActive)
    {
      var _, r := GetCurrentState(now, fetch, number);
      requested := r;
      var previousMotorState := motorState;
      var diff := Sub(targetTemp, currentTemp);
      motorState := NextMotorState(previousMotorState, isActive, diff);
      command := motorState;
    }
  }

  /** A heating cycle with a set-point of 22 on an active device, against a
      sensor whose bodies are "<t>,<h>" with the fields reading as `t1` =
      21.0, `t2` = 22.2, `t3` = 22.6 and `h` = 40: 21.0 heats, 22.2 (inside
      the band) keeps heating, 22.6 stops, a call within 2000 ms of the last
      refresh does not fetch, and a failed fetch keeps the last readings. */
  method HeatingCycle(t1: string, t2: string, t3: string, h: string, number: string -> JsValue)
    requires ',' !in t1 && ',' !in t2 && ',' !in t3 && ',' !in h
    requires number(t1) == Num(21.0) && number(t2) == Num(22.2)
    requires number(t3) == Num(22.6) && number(h) == Num(40.0)
  {
    var t := new ThermostatAccessory();
    t.SetActive(1);
    t.SetTargetTemperature(22.0);

    ParseFirstTwoFields(t1, h, [], number);
    var command, requested := t.UpdateMotorStatus(10000, Success(t1 + [','] + h + []), number);
    assert requested && command == H && t.currentTemp == Num(21.0);

    ParseFirstTwoFields(t2, h, [], number);
    command, requested := t.UpdateMotorStatus(11000, Success(t2 + [','] + h + []), number);
    assert !requested && command == H && t.currentTemp == Num(21.0);
    command, requested := t.UpdateMotorStatus(15000, Success(t2 + [','] + h + []), number);
    assert requested && command == H && t.currentTemp == Num(22.2);

    ParseFirstTwoFields(t3, h, [], number);
    command, requested := t.UpdateMotorStatus(20000, Success(t3 + [','] + h + []), number);
    assert requested && command == L && t.currentTemp == Num(22.6);

    command, requested := t.UpdateMotorStatus(25000, Failure, number);
    assert requested && command == L && t.currentTemp == Num(22.6) && t.currentHumidity == Num(40.0);
  }

  /** Two consecutive ticks of an accessory send exactly the commands that
      `MotorTrace` gives for the active flag and the diffs those ticks see,
      starting from the motor state before the first tick. */
  method TicksFollowMotorTrace(t: ThermostatAccessory, first: Call, second: Call, number: string -> JsValue)
    modifies t
  {
    var before := t.motorState;
    var c1, _ := t.UpdateMotorStatus(first.now, first.fetch, number);
    var d1 := Sub(t.targetTemp, t.currentTemp);
    var c2, _ := t.UpdateMotorStatus(second.now, second.fetch, number);
    var d2 := Sub(t.targetTemp, t.currentTemp);
    assert [c1, c2] == MotorTrace(before, [Tick(t.isActive, d1), Tick(t.isActive, d2)]);
  }
}
