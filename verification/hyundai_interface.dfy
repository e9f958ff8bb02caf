/** The decision rules of the Hyundai car interface: bus selection from the
    fingerprint, and the per-cycle rules of `update` that turn the parsed car
    state into button events, a few flags and the list of car events. CAN
    parsing, the car state and the controller are inputs. */
module HyundaiInterface {
  import opened Common
  import opened EventTable
  import opened HyundaiValues

  // ---------------------------------------------------------------------
  // Bus selection (get_params)

  /** CAN addresses the selection looks for. */
  const MDPS12_ADDR: int := 593
  const SAS11_ADDR: int := 688
  const SCC11_ADDR: int := 1056
  const LKAS11_ADDR: int := 1296

  datatype BusParams = BusParams(
    mdpsBus: int,
    sasBus: int,
    sccBus: int,
    radarOffCan: bool,
    enableCruise: bool)

  /** The cruise radar is usable on bus `b`: it is seen there, and on bus 1
      only when the camera's LKAS11 is not on that bus too. */
  predicate SccUsableOn(b: int, fp0: set<int>, fp1: set<int>, fp2: set<int>) {
    || (b == 0 && SCC11_ADDR in fp0)
    || (b == 1 && SCC11_ADDR in fp1 && LKAS11_ADDR !in fp1)
    || (b == 2 && SCC11_ADDR in fp2)
  }

  /** Bus assignment from the address sets seen on buses 0, 1 and 2. */
  function SelectBuses(fp0: set<int>, fp1: set<int>, fp2: set<int>): (r: BusParams)
    ensures r.mdpsBus in {0, 1} && r.sasBus in {0, 1}
    ensures r.mdpsBus == 1 <==> MDPS12_ADDR in fp1 && LKAS11_ADDR !in fp1
    ensures r.sasBus == 1 <==> SAS11_ADDR in fp1 && LKAS11_ADDR !in fp1
    ensures r.sccBus in {-1, 0, 1, 2}
    ensures r.radarOffCan <==> r.sccBus == -1
    ensures r.enableCruise <==> !r.radarOffCan
  {
    var mdps := if MDPS12_ADDR in fp1 && LKAS11_ADDR !in fp1 then 1 else 0;
    var sas := if SAS11_ADDR in fp1 && LKAS11_ADDR !in fp1 then 1 else 0;
    var scc :=
      if SCC11_ADDR in fp0 then 0
      else if SCC11_ADDR in fp1 && LKAS11_ADDR !in fp1 then 1
      else if SCC11_ADDR in fp2 then 2
      else -1;
    var radarOff := scc == -1;
    BusParams(mdps, sas, scc, radarOff, !radarOff)
  }

  /** The cruise radar bus is the lowest-numbered bus it is usable on, and
      -1 (radar off the bus, cruise disabled) when it is usable on none. */
  lemma SccBusIsLowestUsable(fp0: set<int>, fp1: set<int>, fp2: set<int>)
    ensures var r := SelectBuses(fp0, fp1, fp2);
            && (r.sccBus != -1 ==> SccUsableOn(r.sccBus, fp0, fp1, fp2))
            && (forall b :: 0 <= b < r.sccBus ==> !SccUsableOn(b, fp0, fp1, fp2))
            && (r.sccBus == -1 <==> forall b :: 0 <= b <= 2 ==> !SccUsableOn(b, fp0, fp1, fp2))
  {
    if forall b :: 0 <= b <= 2 ==> !SccUsableOn(b, fp0, fp1, fp2) {
      assert !SccUsableOn(0, fp0, fp1, fp2) && !SccUsableOn(1, fp0, fp1, fp2) && !SccUsableOn(2, fp0, fp1, fp2);
    }
  }

  // ---------------------------------------------------------------------
  // Per-cycle inputs and state

  /** What the parsed car state and the previous cycle provide. */
  datatype CarInputs = CarInputs(
    vEgo: real,
    leftBlinker: bool,
    rightBlinker: bool,
    leftBlinkerFlash: bool,
    rightBlinkerFlash: bool,
    prevLeftBlinker: bool,
    prevRightBlinker: bool,
    cruiseAvailable: bool,
    cruiseEnabled: bool,
    cruiseButtons: int,
    prevCruiseButtons: int,
    cruiseMainButton: int,
    prevCruiseMainButton: int,
    cruiseUnavail: bool,
    mdpsBus: int)

  /** What the car controller provides. */
  datatype ControllerState = ControllerState(
    longcontrol: bool,
    sccLive: bool,
    turningSignalTimer: int)

  /** Fixed for the drive: the car, its steering cut-off speed, the mode
      setting, the lane-change speed floor of the path planner, and the
      button codes. */
  datatype Config = Config(
    car: Car,
    minSteerSpeed: real,
    madModeEnabled: bool,
    laneChangeSpeedMin: real,
    buttons: ButtonCodes)

  /** Interface state carried from one cycle to the next. */
  datatype InterfaceState = InterfaceState(
    enableCruise: bool,
    lowSpeedAlert: bool,
    lkasButtonAlert: bool)

  // ---------------------------------------------------------------------
  // Cruise flag sync

  /** The cruise-enable parameter follows the controller's radar-live flag. */
  function SyncEnableCruise(enableCruise: bool, sccLive: bool): (r: bool)
    ensures r == sccLive
    ensures r != enableCruise ==> enableCruise != sccLive
  {
    if enableCruise && !sccLive then false
    else if sccLive && !enableCruise then true
    else enableCruise
  }

  // ---------------------------------------------------------------------
  // Low-speed steering alert hysteresis

  /** Set below cut-off + 0.2 m/s (only for cars whose cut-off exceeds
      10 m/s), cleared above cut-off + 0.7 m/s, kept in between. */
  function LowSpeedAlert(prev: bool, vEgo: real, minSteerSpeed: real): (r: bool)
    ensures vEgo < minSteerSpeed + 0.2 && minSteerSpeed > 10.0 ==> r
    ensures vEgo > minSteerSpeed + 0.7 ==> !r
    ensures minSteerSpeed + 0.2 <= vEgo <= minSteerSpeed + 0.7 ==> r == prev
    ensures minSteerSpeed <= 10.0 && !prev ==> !r
    ensures r && !prev ==> vEgo < minSteerSpeed + 0.2
    ensures minSteerSpeed <= 10.0 && vEgo <= minSteerSpeed + 0.7 ==> r == prev
  {
    var raised := if vEgo < minSteerSpeed + 0.2 && minSteerSpeed > 10.0 then true else prev;
    if vEgo > minSteerSpeed + 0.7 then false else raised
  }

  /** The boundary values at a 16 m/s cut-off: 16.19 sets the alert, 16.71
      clears it, and 16.5 keeps whatever was there. At a cut-off of exactly
      10 m/s the alert is never set, however low the speed. */
  lemma LowSpeedAlertBoundaries(prev: bool, v: real)
    ensures LowSpeedAlert(false, 16.19, 16.0)
    ensures !LowSpeedAlert(true, 16.71, 16.0)
    ensures LowSpeedAlert(prev, 16.5, 16.0) == prev
    ensures !LowSpeedAlert(false, v, 10.0)
  {
  }

  // ---------------------------------------------------------------------
  // Blinkers and the turning-indicator flag

  /** Blinker state used by the rules: on the Optima, rebuilt from the flash
      signal and the previous blinker while the controller's timer runs. */
  function Blinkers(cfg: Config, inp: CarInputs, cc: ControllerState): (r: (bool, bool))
    ensures cfg.car != Optima ==> r == (inp.leftBlinker, inp.rightBlinker)
    ensures cfg.car == Optima && cc.turningSignalTimer == 0 ==> r == (inp.leftBlinkerFlash, inp.rightBlinkerFlash)
    ensures cfg.car == Optima && cc.turningSignalTimer != 0 ==>
              r == (inp.leftBlinkerFlash || inp.prevLeftBlinker, inp.rightBlinkerFlash || inp.prevRightBlinker)
  {
    if cfg.car == Optima then
      (inp.leftBlinkerFlash || (inp.prevLeftBlinker && cc.turningSignalTimer != 0),
       inp.rightBlinkerFlash || (inp.prevRightBlinker && cc.turningSignalTimer != 0))
    else (inp.leftBlinker, inp.rightBlinker)
  }

  /** Turning-indicator flag: a blinker (or the controller's signal timer)
      is active while driving slower than the lane-change floor less 1.2 m/s. */
  function TurningIndicatorAlert(left: bool, right: bool, timer: int, vEgo: real, laneChangeSpeedMin: real): bool {
    (left || right || timer != 0) && vEgo < laneChangeSpeedMin - 1.2
  }

  /** The flag is never raised at or above the lane-change floor less 1.2 m/s,
      nor without a blinker or a running signal timer. */
  lemma TurningIndicatorNeedsSignalAndLowSpeed(left: bool, right: bool, timer: int, vEgo: real, floor: real)
    ensures vEgo >= floor - 1.2 ==> !TurningIndicatorAlert(left, right, timer, vEgo, floor)
    ensures !left && !right && timer == 0 ==> !TurningIndicatorAlert(left, right, timer, vEgo, floor)
    ensures (left || right || timer != 0) && vEgo < floor - 1.2 ==> TurningIndicatorAlert(left, right, timer, vEgo, floor)
  {
  }

  // ---------------------------------------------------------------------
  // Button events

  datatype ButtonType = Unknown | AccelCruise | DecelCruise | GapAdjustCruise | Cancel | AltButton3

  datatype ButtonEvent = ButtonEvent(kind: ButtonType, pressed: bool)

  /** The button type of a cruise button code. Cancel is not decoded. */
  function DecodeCruiseButton(codes: ButtonCodes, code: int): (r: ButtonType)
    ensures r != Cancel && r != AltButton3
    ensures r == AccelCruise <==> code == codes.resAccel
    ensures r == DecelCruise <==> code == codes.setDecel && code != codes.resAccel
    ensures r == GapAdjustCruise <==> code == codes.gapDist && code != codes.resAccel && code != codes.setDecel
    ensures r == Unknown <==> code !in {codes.resAccel, codes.setDecel, codes.gapDist}
  {
    if code == codes.resAccel then AccelCruise
    else if code == codes.setDecel then DecelCruise
    else if code == codes.gapDist then GapAdjustCruise
    else Unknown
  }

  /** Button events of one cycle: a cruise-button edge first, then a
      main-button edge. A press is decoded from the new code, a release
      from the code that was let go. */
  function ButtonEvents(codes: ButtonCodes, cruise: int, prevCruise: int, main: int, prevMain: int): (r: seq<ButtonEvent>)
    ensures |r| == (if cruise != prevCruise then 1 else 0) + (if main != prevMain then 1 else 0)
    ensures cruise != prevCruise ==>
              r[0].pressed == (cruise != 0)
              && r[0].kind == DecodeCruiseButton(codes, if cruise != 0 then cruise else prevCruise)
    ensures main != prevMain ==> r[|r| - 1] == ButtonEvent(AltButton3, main != 0)
    ensures forall i :: 0 <= i < |r| ==> r[i].kind != Cancel
  {
    var cruiseEvents :=
      if cruise != prevCruise then
        var pressed := cruise != 0;
        [ButtonEvent(DecodeCruiseButton(codes, if pressed then cruise else prevCruise), pressed)]
      else [];
    var mainEvents := if main != prevMain then [ButtonEvent(AltButton3, main != 0)] else [];
    cruiseEvents + mainEvents
  }

  /** A change of cruise-button code from one button to another is a press
      of the new button; a change back to 0 is a release of the old one. */
  lemma CruiseEdgeDirection(codes: ButtonCodes, cruise: int, prevCruise: int, main: int, prevMain: int)
    requires cruise != prevCruise
    ensures var r := ButtonEvents(codes, cruise, prevCruise, main, prevMain);
            && (cruise == 0 ==> !r[0].pressed && r[0].kind == DecodeCruiseButton(codes, prevCruise))
            && (cruise != 0 ==> r[0].pressed && r[0].kind == DecodeCruiseButton(codes, cruise))
  {
  }

  // ---------------------------------------------------------------------
  // Event rules

  /** The per-button rule of the event loop. */
  function HandleButton(events: seq<EventName>, b: ButtonEvent, longcontrol: bool, sccLive: bool,
                        cruiseEnabled: bool): seq<EventName>
  {
    var e1 := if b.kind == Cancel && b.pressed then events + [ButtonCancel] else events;
    if longcontrol && !sccLive then
      var e2 := if b.kind in {AccelCruise, DecelCruise} && !b.pressed then e1 + [ButtonEnable] else e1;
      RemoveIfPresent(RemoveIfPresent(e2, WrongCarMode), PcmDisable)
    else if !longcontrol && cruiseEnabled then
      if b.kind == DecelCruise && !b.pressed then e1 + [ButtonEnable] else e1
    else e1
  }

  /** The loop over the cycle's button events, in order. */
  function HandleButtons(events: seq<EventName>, bs: seq<ButtonEvent>, longcontrol: bool, sccLive: bool,
                         cruiseEnabled: bool): seq<EventName>
    decreases |bs|
  {
    if bs == [] then events
    else HandleButtons(HandleButton(events, bs[0], longcontrol, sccLive, cruiseEnabled), bs[1..],
                       longcontrol, sccLive, cruiseEnabled)
  }

  /** A button event that adds `buttonEnable`: a release of accel or decel
      under the car's own longitudinal control with the radar not live, or a
      release of decel with stock longitudinal control and cruise engaged. */
  predicate Enables(b: ButtonEvent, longcontrol: bool, sccLive: bool, cruiseEnabled: bool) {
    && !b.pressed
    && ((longcontrol && !sccLive && b.kind in {AccelCruise, DecelCruise})
        || (!longcontrol && cruiseEnabled && b.kind == DecelCruise))
  }

  /** Number of button events that enable. */
  function EnablingCount(bs: seq<ButtonEvent>, longcontrol: bool, sccLive: bool, cruiseEnabled: bool): (n: nat)
    ensures n <= |bs|
    ensures n > 0 <==> exists i :: 0 <= i < |bs| && Enables(bs[i], longcontrol, sccLive, cruiseEnabled)
    decreases |bs|
  {
    if bs == [] then 0
    else
      (if Enables(bs[0], longcontrol, sccLive, cruiseEnabled) then 1 else 0)
      + EnablingCount(bs[1..], longcontrol, sccLive, cruiseEnabled)
  }

  function SubClamp(a: nat, b: nat): nat {
    if a >= b then a - b else 0
  }

  /** Count of `e` after one button event, from its count `c` before. */
  function CountAfterButton(c: nat, b: ButtonEvent, longcontrol: bool, sccLive: bool, cruiseEnabled: bool,
                            e: EventName): nat
  {
    if e == ButtonEnable then c + (if Enables(b, longcontrol, sccLive, cruiseEnabled) then 1 else 0)
    else if (e == WrongCarMode || e == PcmDisable) && longcontrol && !sccLive then SubClamp(c, 1)
    else c
  }

  lemma HandleButtonCount(events: seq<EventName>, b: ButtonEvent, longcontrol: bool, sccLive: bool,
                          cruiseEnabled: bool, e: EventName)
    requires b.kind != Cancel
    ensures Count(HandleButton(events, b, longcontrol, sccLive, cruiseEnabled), e)
            == CountAfterButton(Count(events, e), b, longcontrol, sccLive, cruiseEnabled, e)
  {
    if longcontrol && !sccLive {
      var release := (b.kind == AccelCruise || b.kind == DecelCruise) && !b.pressed;
      var e2 := if release then events + [ButtonEnable] else events;
      assert HandleButton(events, b, longcontrol, sccLive, cruiseEnabled)
             == RemoveIfPresent(RemoveIfPresent(e2, WrongCarMode), PcmDisable);
      assert Enables(b, longcontrol, sccLive, cruiseEnabled) == release;
      if release { CountAppend(events, ButtonEnable, e); }
      RemoveBothCount(e2, e);
    } else if !longcontrol && cruiseEnabled && b.kind == DecelCruise && !b.pressed {
      assert HandleButton(events, b, longcontrol, sccLive, cruiseEnabled) == events + [ButtonEnable];
      CountAppend(events, ButtonEnable, e);
    } else {
      assert HandleButton(events, b, longcontrol, sccLive, cruiseEnabled) == events;
    }
  }

  /** Removing one `wrongCarMode` and one `pcmDisable` lowers each of their
      counts by one while any are left and keeps every other count. */
  lemma RemoveBothCount(events: seq<EventName>, e: EventName)
    ensures Count(RemoveIfPresent(RemoveIfPresent(events, WrongCarMode), PcmDisable), e)
            == if e == WrongCarMode || e == PcmDisable then SubClamp(Count(events, e), 1) else Count(events, e)
  {
    var e3 := RemoveIfPresent(events, WrongCarMode);
    CountRemove(events, WrongCarMode, e);
    CountRemove(e3, PcmDisable, e);
  }

  /** The button loop adds one `buttonEnable` per enabling release, adds
      `buttonCancel` for no decoded button, and, under the car's own
      longitudinal control with the radar not live, removes one
      `wrongCarMode` and one `pcmDisable` per button event while any are
      left. Every other event keeps its count. */
  lemma {:induction false} HandleButtonsCounts(events: seq<EventName>, bs: seq<ButtonEvent>, longcontrol: bool,
                                               sccLive: bool, cruiseEnabled: bool, e: EventName)
    requires forall i :: 0 <= i < |bs| ==> bs[i].kind != Cancel
    ensures Count(HandleButtons(events, bs, longcontrol, sccLive, cruiseEnabled), e) ==
            if e == ButtonEnable then Count(events, e) + EnablingCount(bs, longcontrol, sccLive, cruiseEnabled)
            else if (e == WrongCarMode || e == PcmDisable) && longcontrol && !sccLive then SubClamp(Count(events, e), |bs|)
            else Count(events, e)
    decreases |bs|
  {
    if bs != [] {
      var e1 := HandleButton(events, bs[0], longcontrol, sccLive, cruiseEnabled);
      HandleButtonCount(events, bs[0], longcontrol, sccLive, cruiseEnabled, e);
      HandleButtonsCounts(e1, bs[1..], longcontrol, sccLive, cruiseEnabled, e);
    }
  }

  /** `if cond: events.add(x)`. */
  function AddIf(events: seq<EventName>, cond: bool, x: EventName): seq<EventName> {
    if cond then events + [x] else events
  }

  lemma AddIfCount(events: seq<EventName>, cond: bool, x: EventName, e: EventName)
    ensures Count(AddIf(events, cond, x), e) == Count(events, e) + (if cond && x == e then 1 else 0)
  {
    if cond { CountAppend(events, x, e); }
  }

  /** The additions driven by the interface's flags, in order. */
  function AddFlagEvents(common: seq<EventName>, longcontrol: bool, cruiseUnavail: bool, lowSpeed: bool, mdpsBus: int,
                         turning: bool, lkasButtonAlert: bool): seq<EventName>
  {
    var e1 := AddIf(common, longcontrol && cruiseUnavail, BrakeUnavailable);
    var e2 := AddIf(e1, lowSpeed && mdpsBus == 0, BelowSteerSpeed);
    var e3 := AddIf(e2, turning, TurningIndicatorOn);
    AddIf(e3, lkasButtonAlert, LkasButtonOff)
  }

  /** The flag-driven additions, then the removal of the pedal event in the
      mode that engages on the main switch. */
  function FlagRules(common: seq<EventName>, longcontrol: bool, cruiseUnavail: bool, lowSpeed: bool, mdpsBus: int,
                     turning: bool, lkasButtonAlert: bool, madMode: bool): seq<EventName>
  {
    var added := AddFlagEvents(common, longcontrol, cruiseUnavail, lowSpeed, mdpsBus, turning, lkasButtonAlert);
    if madMode && !longcontrol then RemoveIfPresent(added, PedalPressed) else added
  }

  lemma AddFlagEventsCounts(common: seq<EventName>, longcontrol: bool, cruiseUnavail: bool, lowSpeed: bool,
                            mdpsBus: int, turning: bool, lkasButtonAlert: bool, e: EventName)
    ensures Count(AddFlagEvents(common, longcontrol, cruiseUnavail, lowSpeed, mdpsBus, turning, lkasButtonAlert), e) ==
            Count(common, e)
            + (if e == BrakeUnavailable && longcontrol && cruiseUnavail then 1 else 0)
            + (if e == BelowSteerSpeed && lowSpeed && mdpsBus == 0 then 1 else 0)
            + (if e == TurningIndicatorOn && turning then 1 else 0)
            + (if e == LkasButtonOff && lkasButtonAlert then 1 else 0)
  {
    var e1 := AddIf(common, longcontrol && cruiseUnavail, BrakeUnavailable);
    var e2 := AddIf(e1, lowSpeed && mdpsBus == 0, BelowSteerSpeed);
    var e3 := AddIf(e2, turning, TurningIndicatorOn);
    var e4 := AddIf(e3, lkasButtonAlert, LkasButtonOff);
    assert AddFlagEvents(common, longcontrol, cruiseUnavail, lowSpeed, mdpsBus, turning, lkasButtonAlert) == e4;
    AddIfCount(common, longcontrol && cruiseUnavail, BrakeUnavailable, e);
    assert Count(e1, e) == Count(common, e) + (if e == BrakeUnavailable && longcontrol && cruiseUnavail then 1 else 0);
    AddIfCount(e1, lowSpeed && mdpsBus == 0, BelowSteerSpeed, e);
    assert Count(e2, e) == Count(e1, e) + (if e == BelowSteerSpeed && lowSpeed && mdpsBus == 0 then 1 else 0);
    AddIfCount(e2, turning, TurningIndicatorOn, e);
    assert Count(e3, e) == Count(e2, e) + (if e == TurningIndicatorOn && turning then 1 else 0);
    AddIfCount(e3, lkasButtonAlert, LkasButtonOff, e);
    assert Count(e4, e) == Count(e3, e) + (if e == LkasButtonOff && lkasButtonAlert then 1 else 0);
  }

  /** Each flag adds its event exactly once when set, and the pedal event
      loses its first occurrence in that mode; nothing else changes. */
  lemma FlagRulesCounts(common: seq<EventName>, longcontrol: bool, cruiseUnavail: bool, lowSpeed: bool, mdpsBus: int,
                        turning: bool, lkasButtonAlert: bool, madMode: bool, e: EventName)
    ensures Count(FlagRules(common, longcontrol, cruiseUnavail, lowSpeed, mdpsBus, turning, lkasButtonAlert, madMode), e) ==
            (if e == PedalPressed && madMode && !longcontrol then SubClamp(Count(common, e), 1) else Count(common, e))
            + (if e == BrakeUnavailable && longcontrol && cruiseUnavail then 1 else 0)
            + (if e == BelowSteerSpeed && lowSpeed && mdpsBus == 0 then 1 else 0)
            + (if e == TurningIndicatorOn && turning then 1 else 0)
            + (if e == LkasButtonOff && lkasButtonAlert then 1 else 0)
  {
    var added := AddFlagEvents(common, longcontrol, cruiseUnavail, lowSpeed, mdpsBus, turning, lkasButtonAlert);
    AddFlagEventsCounts(common, longcontrol, cruiseUnavail, lowSpeed, mdpsBus, turning, lkasButtonAlert, e);
    if madMode && !longcontrol {
      CountRemove(added, PedalPressed, e);
    }
  }

  /** All decisions of one cycle. */
  datatype CycleOutput = CycleOutput(
    state: InterfaceState,
    cruiseEnabled: bool,
    leftBlinker: bool,
    rightBlinker: bool,
    turningIndicatorAlert: bool,
    buttonEvents: seq<ButtonEvent>,
    events: seq<EventName>)

  /** The decision part of `update`. `common` is the event list built by the
      shared car-event rules for this cycle. */
  function Update(cfg: Config, st: InterfaceState, inp: CarInputs, cc: ControllerState,
                  common: seq<EventName>): CycleOutput
  {
    var enableCruise := SyncEnableCruise(st.enableCruise, cc.sccLive);
    var cruiseEnabled := if cfg.madModeEnabled && !cc.longcontrol then inp.cruiseAvailable else inp.cruiseEnabled;
    var (left, right) := Blinkers(cfg, inp, cc);
    var turning := TurningIndicatorAlert(left, right, cc.turningSignalTimer, inp.vEgo, cfg.laneChangeSpeedMin);
    var lowSpeed := LowSpeedAlert(st.lowSpeedAlert, inp.vEgo, cfg.minSteerSpeed);
    var buttons := ButtonEvents(cfg.buttons, inp.cruiseButtons, inp.prevCruiseButtons,
                                inp.cruiseMainButton, inp.prevCruiseMainButton);
    var flagged := FlagRules(common, cc.longcontrol, inp.cruiseUnavail, lowSpeed, inp.mdpsBus, turning,
                             st.lkasButtonAlert, cfg.madModeEnabled);
    var events := HandleButtons(flagged, buttons, cc.longcontrol, cc.sccLive, cruiseEnabled);
    CycleOutput(InterfaceState(enableCruise, lowSpeed, st.lkasButtonAlert),
                cruiseEnabled, left, right, turning, buttons, events)
  }

  /** After the cycle the cruise-enable parameter equals the radar-live flag,
      the steering alert follows the hysteresis, the turning-indicator flag
      follows the blinkers, the signal timer and the speed, and the alert
      flags keep their meaning. */
  lemma UpdateState(cfg: Config, st: InterfaceState, inp: CarInputs, cc: ControllerState, common: seq<EventName>)
    ensures var o := Update(cfg, st, inp, cc, common);
            && o.state.enableCruise == cc.sccLive
            && o.state.lowSpeedAlert == LowSpeedAlert(st.lowSpeedAlert, inp.vEgo, cfg.minSteerSpeed)
            && o.state.lkasButtonAlert == st.lkasButtonAlert
            && o.cruiseEnabled == (if cfg.madModeEnabled && !cc.longcontrol then inp.cruiseAvailable else inp.cruiseEnabled)
            && (o.leftBlinker, o.rightBlinker) == Blinkers(cfg, inp, cc)
            && (o.turningIndicatorAlert <==>
                  (o.leftBlinker || o.rightBlinker || cc.turningSignalTimer != 0)
                  && inp.vEgo < cfg.laneChangeSpeedMin - 1.2)
            && |o.buttonEvents| <= 2
  {
  }

  /** The cycle's events are the button loop run over the flag rules' output. */
  lemma UpdateEventsSplit(cfg: Config, st: InterfaceState, inp: CarInputs, cc: ControllerState,
                          common: seq<EventName>) returns (flagged: seq<EventName>)
    ensures var o := Update(cfg, st, inp, cc, common);
            && flagged == FlagRules(common, cc.longcontrol, inp.cruiseUnavail, o.state.lowSpeedAlert, inp.mdpsBus,
                                    o.turningIndicatorAlert, st.lkasButtonAlert, cfg.madModeEnabled)
            && o.events == HandleButtons(flagged, o.buttonEvents, cc.longcontrol, cc.sccLive, o.cruiseEnabled)
            && (forall i :: 0 <= i < |o.buttonEvents| ==> o.buttonEvents[i].kind != Cancel)
  {
    var o := Update(cfg, st, inp, cc, common);
    flagged := FlagRules(common, cc.longcontrol, inp.cruiseUnavail, o.state.lowSpeedAlert, inp.mdpsBus,
                         o.turningIndicatorAlert, st.lkasButtonAlert, cfg.madModeEnabled);
  }

  /** Count of each flag-driven event after the whole cycle: one more than
      the shared rules produced iff its flag is set (`belowSteerSpeed` also
      needs steering on bus 0), and one `pedalPressed` fewer (if any) when
      the car engages on the main switch without its own longitudinal control. */
  lemma FlagEventCounts(cfg: Config, st: InterfaceState, inp: CarInputs, cc: ControllerState,
                        common: seq<EventName>, e: EventName)
    requires e in {BelowSteerSpeed, TurningIndicatorOn, BrakeUnavailable, LkasButtonOff, PedalPressed}
    ensures var o := Update(cfg, st, inp, cc, common);
            && (e == BelowSteerSpeed ==>
                  Count(o.events, e) == Count(common, e) + (if o.state.lowSpeedAlert && inp.mdpsBus == 0 then 1 else 0))
            && (e == TurningIndicatorOn ==>
                  Count(o.events, e) == Count(common, e) + (if o.turningIndicatorAlert then 1 else 0))
            && (e == BrakeUnavailable ==>
                  Count(o.events, e) == Count(common, e) + (if cc.longcontrol && inp.cruiseUnavail then 1 else 0))
            && (e == LkasButtonOff ==>
                  Count(o.events, e) == Count(common, e) + (if st.lkasButtonAlert then 1 else 0))
            && (e == PedalPressed ==>
                  Count(o.events, e) == if cfg.madModeEnabled && !cc.longcontrol
                                         then SubClamp(Count(common, e), 1) else Count(common, e))
  {
    var o := Update(cfg, st, inp, cc, common);
    var flagged := UpdateEventsSplit(cfg, st, inp, cc, common);
    HandleButtonsCounts(flagged, o.buttonEvents, cc.longcontrol, cc.sccLive, o.cruiseEnabled, e);
    FlagRulesCounts(common, cc.longcontrol, inp.cruiseUnavail, o.state.lowSpeedAlert, inp.mdpsBus,
                    o.turningIndicatorAlert, st.lkasButtonAlert, cfg.madModeEnabled, e);
  }

  /** `buttonEnable` is added once per enabling release edge and never
      otherwise; `wrongCarMode` and `pcmDisable` lose one occurrence per
      button event under the car's own longitudinal control with the radar
      not live, and none otherwise; `buttonCancel` is never added. */
  lemma ButtonEventCounts(cfg: Config, st: InterfaceState, inp: CarInputs, cc: ControllerState,
                          common: seq<EventName>, e: EventName)
    requires e in {ButtonEnable, WrongCarMode, PcmDisable, ButtonCancel}
    ensures var o := Update(cfg, st, inp, cc, common);
            && (e == ButtonEnable ==>
                  Count(o.events, e) == Count(common, e)
                                        + EnablingCount(o.buttonEvents, cc.longcontrol, cc.sccLive, o.cruiseEnabled))
            && (e in {WrongCarMode, PcmDisable} ==>
                  Count(o.events, e) == if cc.longcontrol && !cc.sccLive
                                         then SubClamp(Count(common, e), |o.buttonEvents|) else Count(common, e))
            && (e == ButtonCancel ==> Count(o.events, e) == Count(common, e))
  {
    var o := Update(cfg, st, inp, cc, common);
    var flagged := UpdateEventsSplit(cfg, st, inp, cc, common);
    HandleButtonsCounts(flagged, o.buttonEvents, cc.longcontrol, cc.sccLive, o.cruiseEnabled, e);
    FlagRulesCounts(common, cc.longcontrol, inp.cruiseUnavail, o.state.lowSpeedAlert, inp.mdpsBus,
                    o.turningIndicatorAlert, st.lkasButtonAlert, cfg.madModeEnabled, e);
  }

  /** An enabling button event is always a release of accel or decel. */
  lemma EnableOnlyOnRelease(b: ButtonEvent, longcontrol: bool, sccLive: bool, cruiseEnabled: bool)
    requires Enables(b, longcontrol, sccLive, cruiseEnabled)
    ensures !b.pressed && b.kind in {AccelCruise, DecelCruise}
    ensures !longcontrol ==> b.kind == DecelCruise && cruiseEnabled
    ensures longcontrol ==> !sccLive
  {
  }
}
