/** The event taxonomy: event names, the eight event types (categories),
    and the table mapping each event to the alert it raises per category.
    The operations on events take the table as a parameter; `EVENTS` below
    is a representative excerpt of the program's table. */
module EventTable {
  import opened Alerts

  /** Event names (an excerpt of the message schema's enumeration). */
  datatype EventName =
    | Startup | GasPressed | CanError | SensorDataInvalid | NoGps
    | BelowSteerSpeed | TurningIndicatorOn | LkasButtonOff
    | PcmEnable | ButtonEnable | PcmDisable | ButtonCancel
    | PedalPressed | WrongCarMode | DoorOpen | BrakeUnavailable
    | SteerTempUnavailable

  /** Event types. */
  datatype Category =
    | Enable | PreEnable | NoEntry | Warning
    | UserDisable | SoftDisable | ImmediateDisable | Permanent

  /** What an alert callback may read: the car parameters, the live
      messages and the unit setting, reduced to the fields the callbacks use. */
  datatype CallbackArgs = CallbackArgs(
    minSteerSpeed: real,
    metric: bool,
    calibrationPercent: int,
    gpsIntegrated: bool,
    autoLaneChangeTimer: real)

  /** A table entry is either a fixed alert or a callback producing one. */
  datatype AlertSource =
    | Static(alert: Alert)
    | Computed(make: CallbackArgs -> Alert)

  type Table = map<EventName, map<Category, AlertSource>>

  /** The table entry for `e` declares category `et`. An event missing from
      the table declares nothing. */
  predicate Declares(t: Table, e: EventName, et: Category) {
    e in t && et in t[e]
  }

  /** `below_steer_speed_alert`: only its texts depend on the arguments. */
  function BelowSteerSpeedAlert(args: CallbackArgs): (a: Alert)
    ensures a.priority == MID && a.status == UserPrompt && a.creationDelay == 0.0
  {
    MakeAlert(UserPrompt, Mid, MID, SteerRequired, AudibleNone, 0.0, 0.4, 0.3)
  }

  /** `no_gps_alert`: shown only after five minutes without a fix. */
  function NoGpsAlert(args: CallbackArgs): (a: Alert)
    ensures a.priority == LOWER && a.creationDelay == 300.0
  {
    Alert(Normal, Mid, LOWER, VisualNone, AudibleNone, 0.0, 0.0, 0.2, 0.0, 300.0)
  }

  /** `wrong_car_mode_alert`: a no-entry alert without HUD time. */
  function WrongCarModeAlert(args: CallbackArgs): (a: Alert)
    ensures a.priority == LOW && a.durationHudAlert == 0.0
  {
    NoEntryAlert(ChimeError, VisualNone, 0.0)
  }

  /** Representative excerpt of the program's event table. */
  const EVENTS: Table := map[
    Startup := map[
      Permanent := Static(MakeAlert(Normal, Mid, LOWER, VisualNone, AudibleNone, 0.0, 0.0, 15.0))],
    GasPressed := map[
      PreEnable := Static(MakeAlert(Normal, Small, LOWEST, VisualNone, AudibleNone, 0.0, 0.0, 0.1))],
    BelowSteerSpeed := map[
      Warning := Computed(BelowSteerSpeedAlert)],
    TurningIndicatorOn := map[
      Warning := Static(MakeAlert(UserPrompt, Small, LOW, VisualNone, AudibleNone, 0.0, 0.0, 0.2))],
    LkasButtonOff := map[
      Warning := Static(MakeAlert(UserPrompt, Small, LOW, VisualNone, AudibleNone, 0.0, 0.0, 0.1))],
    PcmEnable := map[
      Enable := Static(EngagementAlert(ChimeEngage))],
    ButtonEnable := map[
      Enable := Static(EngagementAlert(ChimeEngage))],
    PcmDisable := map[
      UserDisable := Static(EngagementAlert(ChimeDisengage))],
    ButtonCancel := map[
      UserDisable := Static(EngagementAlert(ChimeDisengage))],
    PedalPressed := map[
      UserDisable := Static(EngagementAlert(ChimeDisengage)),
      NoEntry := Static(NoEntryAlert(ChimeError, BrakePressed, 2.0))],
    WrongCarMode := map[
      UserDisable := Static(EngagementAlert(ChimeDisengage)),
      NoEntry := Computed(WrongCarModeAlert)],
    SteerTempUnavailable := map[
      Warning := Static(MakeAlert(UserPrompt, Mid, LOW, SteerRequired, ChimeWarning1, 0.4, 2.0, 3.0)),
      NoEntry := Static(NoEntryAlert(ChimeError, VisualNone, 0.0))],
    SensorDataInvalid := map[
      Permanent := Static(Alert(Normal, Mid, LOWER, VisualNone, AudibleNone, 0.0, 0.0, 0.2, 0.0, 1.0)),
      NoEntry := Static(DefaultNoEntryAlert())],
    NoGps := map[
      Permanent := Computed(NoGpsAlert)],
    DoorOpen := map[
      SoftDisable := Static(SoftDisableAlert()),
      NoEntry := Static(DefaultNoEntryAlert())],
    CanError := map[
      ImmediateDisable := Static(ImmediateDisableAlert()),
      Permanent := Static(Alert(Normal, Small, LOW, VisualNone, AudibleNone, 0.0, 0.0, 0.2, 0.0, 1.0)),
      NoEntry := Static(DefaultNoEntryAlert())],
    BrakeUnavailable := map[
      ImmediateDisable := Static(ImmediateDisableAlert()),
      Permanent := Static(MakeAlert(Normal, Small, LOWER, VisualNone, AudibleNone, 0.0, 0.0, 0.2)),
      NoEntry := Static(DefaultNoEntryAlert())]
  ]
}
