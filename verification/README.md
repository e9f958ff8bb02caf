# Hyundai car interface, event bookkeeping and frame builders

This project models three parts of an openpilot fork's control stack:

- **Events bookkeeping** (`selfdrive/controls/lib/events.py`):
  - the ordered list of active events, the latched list of "static" events, and the per-event counter of consecutive cycles;
  - `add`, `clear`, `any`, `create_alerts` with its creation-delay gate, and `to_msg`;
  - the `Alert` comparison, which looks at priority only, and the priority presets.
- **Per-cycle decision rules of the Hyundai `CarInterface`** (`selfdrive/car/hyundai/interface.py`):
  - the bus selection of `get_params`;
  - the cruise-enable sync, the low-speed steering-alert hysteresis and the turning-indicator flag;
  - the decoding of button edges into button events;
  - the rules that add and remove events.
- **Frame builders** (`selfdrive/car/hyundai/hyundaican.py`):
  - the signals each `create_*` writes into the received frame;
  - the rolling counters;
  - the three LKAS11 checksum variants: the CRC-8 with generator 0x11D, initial CRC 0xFD and final XOR 0xDF, and two byte sums;
  - the SCC12 nibble checksum and the MDPS12 byte sum.

All of it is pure functions over immutable datatypes, with these modelling choices:

- Python exceptions become `Result` errors: `KeyError`, `IndexError`, and a callback called without arguments.
- The event table is a map from event name to category to an alert source. A source is a fixed alert or a callback.
  - `EventTable.EVENTS` is a representative excerpt of it.
  - The bookkeeping operations take the table as a parameter.
- The CAN packer is a function parameter from message name and signal map to payload bytes.
- Signal names form a datatype. Signal values, speeds and times are exact reals, not IEEE doubles (see "## Left out").
- The cars in each LKAS11 checksum list are inputs.
- Cruise-button codes, the lane-change speed floor and the shared car-event list (`create_common_events`) are inputs of the interface model.

Modules follow the source files:

| module | what it holds |
|---|---|
| `Common` | errors, `Result`/`Option`, `Byte`, and Python list helpers (`count`, `remove`) |
| `Alerts` | priorities, the `Alert` record, the presets and the comparison operators |
| `EventTable` | event names, categories, alert sources, and the table excerpt |
| `Events` | the bookkeeping state and its operations |
| `HyundaiValues` | the car platforms and the cruise-button codes |
| `HyundaiInterface` | the bus selection and the per-cycle decision rules |
| `Crc` | the bitwise CRC-8 |
| `HyundaiChecksum` | the LKAS11, SCC12 and MDPS12 checksums over payload bytes |
| `HyundaiCan` | the `create_*` frame builders |

Two behaviours of the code are worth stating up front:

- `create_alerts` returns every qualifying alert, in active-list order and then category order. There is no per-category arbitration.
- The low-speed steering alert is set only when the steering cut-off speed is strictly above 10 m/s, so a cut-off of exactly 10 never sets it.

## Model

| member | source | states |
|---|---|---|
| Alerts.MakeAlert | selfdrive/controls/lib/events.py:99-128 | an alert built without the two defaulted arguments has no repeat rate and no creation delay, and keeps the given priority and status |
| Alerts.NoEntryAlert | selfdrive/controls/lib/events.py:144-149 | the no-entry preset has LOW priority, normal status and mid size, with the given sound, visual and HUD duration, and no creation delay |
| Alerts.DefaultNoEntryAlert | selfdrive/controls/lib/events.py:145-146 | with its defaults, the no-entry preset plays the error chime, shows no visual, and keeps the HUD for 2 s |
| Alerts.SoftDisableAlert | selfdrive/controls/lib/events.py:152-157 | the soft-disable preset has MID priority and is a critical full-size steer-required alert with the repeating warning chime |
| Alerts.ImmediateDisableAlert | selfdrive/controls/lib/events.py:160-165 | the immediate-disable preset has HIGHEST priority and is a critical full-size steer-required alert |
| Alerts.EngagementAlert | selfdrive/controls/lib/events.py:167-172 | the engagement preset has MID priority, no visual and no size, and only plays the given sound |
| Alerts.ComparisonIsPriorityComparison | selfdrive/controls/lib/events.py:137-142 | each derived operator (<, <=, >=, !=) holds iff the same comparison holds on priorities |
| Alerts.LtIsStrictWeakOrder | selfdrive/controls/lib/events.py:137-142 | `<` on alerts is irreflexive, transitive and asymmetric, incomparability is transitive, and any two alerts are ordered or equal |
| Alerts.EqualityIgnoresContents | selfdrive/controls/lib/events.py:141-142 | two alerts that differ in everything but priority compare equal and neither is less or greater |
| Alerts.PresetRanking | selfdrive/controls/lib/events.py:15-21 | immediate-disable ranks above soft-disable and engagement, which tie, and both rank above no-entry, whatever the preset arguments |
| EventTable.BelowSteerSpeedAlert | selfdrive/controls/lib/events.py:177-184 | the callback's alert is a MID-priority user prompt with no creation delay, whatever the arguments |
| EventTable.NoGpsAlert | selfdrive/controls/lib/events.py:195-201 | the callback's alert has LOWER priority and is held back for 300 s |
| EventTable.WrongCarModeAlert | selfdrive/controls/lib/events.py:203-207 | the callback's alert is a no-entry alert without HUD time |
| Events.Init | selfdrive/controls/lib/events.py:38-41 | a fresh state has no active or latched events, and a zero counter for exactly the events of the table |
| Events.Add | selfdrive/controls/lib/events.py:50-53 | the event is appended to the active list, duplicates kept; it is also latched iff static; the counters are untouched |
| Events.AddAll | selfdrive/controls/lib/events.py:83-85 | adding a message's events appends them all, in order, without latching or touching the counters |
| Events.NextCounters | selfdrive/controls/lib/events.py:56 | the counted events stay the same; an active event's counter goes up by one, and every other counter drops to zero |
| Events.Clear | selfdrive/controls/lib/events.py:55-57 | after `clear` the active list is exactly the latched list; each counter goes up by one for an event that was active and resets to zero otherwise |
| Events.Any | selfdrive/controls/lib/events.py:59-63 | the loop answers true iff some active event's table entry declares the category (an event missing from the table declares nothing) |
| Events.Materialize | selfdrive/controls/lib/events.py:74-76 | a fixed alert is used as it is; a callback is called with the supplied arguments, and raising is modelled as an error when there are none |
| Events.AlertsForErrorPropagates | selfdrive/controls/lib/events.py:72-80 | an error raised for an earlier requested category ends the inner loop with that error |
| Events.CollectErrorPropagates | selfdrive/controls/lib/events.py:70-80 | an error raised for an earlier active event ends `create_alerts` with that error |
| Events.CreateAlerts | selfdrive/controls/lib/events.py:65-81 | the nested loop over active events and requested categories computes the recursive definition of the alert list, errors included |
| Events.ToMsg | selfdrive/controls/lib/events.py:87-95 | one entry per active event, in order, named after it, whose set flags are exactly the categories its table entry declares |
| Events.AlertsForMembership | selfdrive/controls/lib/events.py:72-80 | for one event, an alert is raised iff its category is requested, declared, and passes the creation-delay gate |
| Events.AlertsForLast | selfdrive/controls/lib/events.py:72-80 | the last requested category adds at most its own qualifying alert to those of the earlier categories |
| Events.AlertsForEarlierCategoriesFirst | selfdrive/controls/lib/events.py:72-80 | within one event, the alerts for a prefix of the requested categories are a prefix of the alerts for all of them: output follows requested-category order |
| Events.CreateAlertsMembership | selfdrive/controls/lib/events.py:65-81 | `create_alerts` raises an alert iff its event is active, its category is requested and declared, and the gate passes |
| Events.EarlierEventsAlertFirst | selfdrive/controls/lib/events.py:70-81 | the alerts of a prefix of the active list are a prefix of the output: output order follows active-list order |
| Events.DuplicatesAreKept | selfdrive/controls/lib/events.py:70-81 | an event active twice raises its alerts twice; nothing is de-duplicated or arbitrated |
| Events.CreateAlertsFailsOnlyOnUnknownEvent | selfdrive/controls/lib/events.py:71 | with callback arguments supplied and every table event counted, `create_alerts` fails iff some active event is missing from the table, and then with a key error |
| Events.AlertsForNeverFails | selfdrive/controls/lib/events.py:72-80 | with callback arguments supplied, the inner loop never fails for a known, counted event |
| Events.CallbackWithoutArgumentsRaises | selfdrive/controls/lib/events.py:66-76 | without callback arguments, reaching a callback entry raises |
| Events.ZeroDelayAlwaysPasses | selfdrive/controls/lib/events.py:78 | with a positive control period, an alert with the default zero creation delay passes the gate at every counter |
| Events.GateMonotone | selfdrive/controls/lib/events.py:78 | the gate is monotone in the counter: passing at n means passing at every m >= n |
| Events.GatePassesWhileActive | selfdrive/controls/lib/events.py:55-78 | an active event whose alert passed the gate still passes it after `clear` |
| Events.CountersAfter | selfdrive/controls/lib/events.py:56 | repeated `clear` keeps the set of counted events |
| Events.CountersCountStreak | selfdrive/controls/lib/events.py:56 | after a history of cycles, a counter equals the event's streak of consecutive active cycles; one absence resets it |
| Events.Cycle | selfdrive/controls/lib/events.py:50-57 | one control cycle (`clear`, then add) leaves the latched list followed by the new events, with counters advanced over the previous list |
| Events.RunCycles | selfdrive/controls/lib/events.py:38-57 | from a fresh state, the active list is the last cycle's events and the counted events are the table's |
| Events.RunCyclesStep | selfdrive/controls/lib/events.py:56 | one more cycle advances the counters over the previous cycle's active list |
| Events.RunCyclesCounters | selfdrive/controls/lib/events.py:41-56 | the counters after a run equal the counters of a fresh state advanced over every earlier cycle's list |
| Events.StreakAfterEmptyCycle | selfdrive/controls/lib/events.py:56 | a leading empty cycle does not change any streak |
| Events.ContinuousPresenceGate | selfdrive/controls/lib/events.py:55-78 | an event active for s consecutive cycles has counter s - 1, and its alert passes the gate iff s control periods reach the creation delay |
| Events.StreakBound | selfdrive/controls/lib/events.py:56 | a streak never exceeds the number of cycles |
| Events.StaticEventsLatch | selfdrive/controls/lib/events.py:50-57 | under any sequence of `add` and `clear`, the latched list only grows at its end and the set of counted events never changes; right after a `clear` the active list is exactly the latched list, so every event once latched is active |
| Events.AnyAgreesWithMessage | selfdrive/controls/lib/events.py:59-95 | `any` holds for a category iff some entry of `to_msg` sets that category's flag |
| HyundaiInterface.SelectBuses | selfdrive/car/hyundai/interface.py:198-205 | MDPS and SAS are on bus 1 iff their address is seen there without LKAS11, else on bus 0; the SCC bus is in {-1, 0, 1, 2}; the radar is off the bus iff no bus is found; cruise is enabled iff the radar is on the bus |
| HyundaiInterface.SccBusIsLowestUsable | selfdrive/car/hyundai/interface.py:201-203 | the SCC bus is the lowest bus the radar is usable on (bus 1 only without LKAS11), and -1 iff it is usable on none |
| HyundaiInterface.SyncEnableCruise | selfdrive/car/hyundai/interface.py:221-224 | after the sync, the cruise-enable parameter equals the radar-live flag; it changes only when the two disagreed |
| HyundaiInterface.LowSpeedAlert | selfdrive/car/hyundai/interface.py:245-249 | the steering alert is set below cut-off + 0.2 m/s (cut-off above 10 m/s only), cleared above cut-off + 0.7 m/s, and kept in between; for a cut-off of 10 m/s or less it is only ever kept or cleared, never newly set |
| HyundaiInterface.LowSpeedAlertBoundaries | selfdrive/car/hyundai/interface.py:245-249 | at a 16 m/s cut-off, 16.19 m/s sets the alert, 16.71 m/s clears it, 16.5 m/s keeps it; at a 10 m/s cut-off it is never set |
| HyundaiInterface.Blinkers | selfdrive/car/hyundai/interface.py:229-232 | other cars use the parsed blinkers; on the Optima each blinker is its flash signal, or, while the signal timer runs, the flash signal or the previous blinker |
| HyundaiInterface.TurningIndicatorNeedsSignalAndLowSpeed | selfdrive/car/hyundai/interface.py:234-238 | the flag is raised iff a blinker is on or the signal timer runs, and the speed is below the lane-change floor less 1.2 m/s |
| HyundaiInterface.DecodeCruiseButton | selfdrive/car/hyundai/interface.py:256-265 | a code decodes to accel, decel or gap iff it equals that button's code (tested in that order), to unknown iff it matches none, and never to cancel |
| HyundaiInterface.ButtonEvents | selfdrive/car/hyundai/interface.py:251-272 | one event per changed button, cruise before main; a cruise event is pressed iff the new code is non-zero and decodes the new code on press and the old one on release; the main event is `altButton3` pressed iff the new state is set |
| HyundaiInterface.CruiseEdgeDirection | selfdrive/car/hyundai/interface.py:252-255 | a change to 0 is a release of the previous button; a change to a non-zero code is a press of the new one |
| HyundaiInterface.EnablingCount | selfdrive/car/hyundai/interface.py:290-305 | the number of enabling button events is at most the number of events, and positive iff some event enables |
| HyundaiInterface.HandleButtonCount | selfdrive/car/hyundai/interface.py:290-305 | one button event changes each event's count as the button rule says: one more `buttonEnable` iff it enables, and one fewer `wrongCarMode`/`pcmDisable` (if any) under own longitudinal control with the radar not live |
| HyundaiInterface.RemoveBothCount | selfdrive/car/hyundai/interface.py:298-301 | removing the first `wrongCarMode` and the first `pcmDisable` lowers each of their counts by one when present and leaves other counts alone |
| HyundaiInterface.HandleButtonsCounts | selfdrive/car/hyundai/interface.py:290-305 | over all button events: one `buttonEnable` per enabling event; `wrongCarMode` and `pcmDisable` lose one occurrence per button event while any are left, only under own longitudinal control with the radar not live; other counts unchanged |
| HyundaiInterface.AddIfCount | selfdrive/car/hyundai/interface.py:276-285 | a conditional `add` raises the count of its event by one iff the condition holds |
| HyundaiInterface.AddFlagEventsCounts | selfdrive/car/hyundai/interface.py:276-285 | the flag-driven adds raise each flag's event by one iff its condition holds, and leave every other count unchanged |
| HyundaiInterface.FlagRulesCounts | selfdrive/car/hyundai/interface.py:276-287 | as above, and the first `pedalPressed` is removed in main-switch mode without own longitudinal control |
| HyundaiInterface.UpdateState | selfdrive/car/hyundai/interface.py:221-272 | after a cycle the cruise-enable parameter equals the radar-live flag, the steering alert follows the hysteresis, the blinkers are the rebuilt ones, the turning-indicator flag is set iff a blinker or the signal timer is on below the lane-change floor less 1.2 m/s, cruise counts as enabled iff available in main-switch mode without own longitudinal control and is the parsed cruise state otherwise, and there are at most two button events |
| HyundaiInterface.UpdateEventsSplit | selfdrive/car/hyundai/interface.py:274-305 | the cycle's events are the button loop run over the flag rules' output, and no button event is ever a cancel |
| HyundaiInterface.FlagEventCounts | selfdrive/car/hyundai/interface.py:276-287 | over a whole cycle, `belowSteerSpeed` is added iff the steering alert is set and steering is on bus 0; `turningIndicatorOn`, `brakeUnavailable` and `lkasButtonOff` are added iff their flags are set; the first `pedalPressed` goes in main-switch mode |
| HyundaiInterface.ButtonEventCounts | selfdrive/car/hyundai/interface.py:289-305 | over a whole cycle, `buttonEnable` is added once per enabling release and never otherwise; `wrongCarMode`/`pcmDisable` removals happen only under own longitudinal control with the radar not live; `buttonCancel` is never added |
| HyundaiInterface.EnableOnlyOnRelease | selfdrive/car/hyundai/interface.py:294-305 | an enabling event is always a release of accel or decel; without own longitudinal control only decel enables, and only with cruise enabled; with it, only while the radar is not live |
| Crc.Crc8OfEmptyIsInitCrc | selfdrive/car/hyundai/hyundaican.py:4 | the CRC of no bytes is the initial CRC 0xFD |
| Crc.CrcRegisterSnoc | selfdrive/car/hyundai/hyundaican.py:4 | feeding one more byte is one byte step on the register so far |
| Crc.Crc8OfZeros | selfdrive/car/hyundai/hyundaican.py:4 | golden vector: the CRC of seven zero bytes is 0x0A |
| Crc.Crc8OfCounting | selfdrive/car/hyundai/hyundaican.py:4 | golden vector: the CRC of 1, 2, 3, 4, 5, 6, 8 is 0xFF |
| Crc.ShiftByteInjective | selfdrive/car/hyundai/hyundaican.py:4 | the byte step of generator 0x11D is injective |
| Crc.RegisterDiverges | selfdrive/car/hyundai/hyundaican.py:4 | two inputs that differ in exactly one byte leave the register different |
| Crc.Crc8DetectsSingleByteError | selfdrive/car/hyundai/hyundaican.py:4 | the CRC changes whenever exactly one byte of the input changes |
| Crc.Crc8Loop | selfdrive/car/hyundai/hyundaican.py:4 | the byte-by-byte loop computes the recursive CRC |
| HyundaiChecksum.Slice | selfdrive/car/hyundai/hyundaican.py:51-58 | Python slicing: within bounds it is the sub-sequence, an end past the payload is clipped to its length, and a start past the end gives the empty sequence |
| HyundaiChecksum.SumMod256DetectsSingleByteError | selfdrive/car/hyundai/hyundaican.py:92 | the byte sum modulo 256 changes whenever exactly one byte changes |
| HyundaiChecksum.SelectVariant | selfdrive/car/hyundai/hyundaican.py:49-58 | the CRC variant iff the car is in the CRC list; the six-byte sum iff it is not, but is in the six-byte list; the seven-byte sum iff in neither |
| HyundaiChecksum.LkasChecksumOnFullPayload | selfdrive/car/hyundai/hyundaican.py:49-58 | on eight bytes, no variant fails; the CRC runs over bytes 0-5 then byte 7, and the sums are bytes 0-5 (plus byte 7) modulo 256 |
| HyundaiChecksum.LkasChecksumIgnoresByte6 | selfdrive/car/hyundai/hyundaican.py:49-58 | byte 6 never enters any variant |
| HyundaiChecksum.LkasChecksumFailsOnlyOnShortPayload | selfdrive/car/hyundai/hyundaican.py:58 | only the seven-byte sum fails, and exactly on payloads shorter than eight bytes |
| HyundaiChecksum.LkasChecksumDetectsSingleByteError | selfdrive/car/hyundai/hyundaican.py:49-58 | every variant changes when exactly one of bytes 0-5 of an eight-byte payload changes |
| HyundaiChecksum.Scc12Checksum | selfdrive/car/hyundai/hyundaican.py:80 | the checksum lies in 1..16, completes the nibble sum to a multiple of 16, and is 16 iff the nibble sum already is a multiple of 16 |
| HyundaiChecksum.Scc12ChecksumOfZeroPayload | selfdrive/car/hyundai/hyundaican.py:80 | an all-zero payload gets 16, which does not fit a four-bit field |
| HyundaiCan.Counter4 | selfdrive/car/hyundai/hyundaican.py:19 | the four-bit counter is below 16 and equals the frame number for the first 16 frames |
| HyundaiCan.Counter8 | selfdrive/car/hyundai/hyundaican.py:88 | the eight-bit counter is below 256 and equals the frame number for the first 256 frames |
| HyundaiCan.Counter4Advances | selfdrive/car/hyundai/hyundaican.py:68 | the counter goes up by one per frame and wraps from 15 to 0 |
| HyundaiCan.Counter8Advances | selfdrive/car/hyundai/hyundaican.py:88 | the counter goes up by one per frame and wraps from 255 to 0 |
| HyundaiCan.LkasFieldsFrame | selfdrive/car/hyundai/hyundaican.py:11-45 | LKAS11 writes exactly its base signals plus the display signals of display platforms, and leaves every other received signal as it was |
| HyundaiCan.LkasWrittenKeys | selfdrive/car/hyundai/hyundaican.py:12-45 | the written signals are the nine base signals plus, on display platforms, the three display signals |
| HyundaiCan.LkasDisplayValuesKeys | selfdrive/car/hyundai/hyundaican.py:22-45 | display platforms and the Sonata Turbo write the three display fields and the warning again; other cars write none |
| HyundaiCan.LkasCounterFields | selfdrive/car/hyundai/hyundaican.py:18-20 | the message counter is the frame modulo 16, the torque fault flag is 0, and the checksum field is 0 before checksumming |
| HyundaiCan.LkasRequestFields | selfdrive/car/hyundai/hyundaican.py:12-17 | the torque request, the active flag and the system state carry the request's values |
| HyundaiCan.LkasDepartureFields | selfdrive/car/hyundai/hyundaican.py:14-15 | the left and right departure warnings carry the request's values |
| HyundaiCan.LkasDisplayFields | selfdrive/car/hyundai/hyundaican.py:13-45 | the hands-on warning is 4 on display platforms and 3 otherwise (0 when off); lane flags are left + 2 x right on the listed cars and 0 on the Sonata Turbo; the option fields are 2 and 2/1 by engagement |
| HyundaiCan.WithLkasChecksum | selfdrive/car/hyundai/hyundaican.py:47-62 | the payload packed with a zero checksum is checksummed and the result written back, so a receiver's check passes; it fails with an index error iff the seven-byte sum meets a short payload |
| HyundaiCan.CreateLkas11 | selfdrive/car/hyundai/hyundaican.py:7-62 | the sent frame holds the written fields and a valid checksum of the car's variant, packed for the given bus; it fails only where the seven-byte sum reads past a short payload |
| HyundaiCan.Lkas11IgnoresStaleChecksum | selfdrive/car/hyundai/hyundaican.py:20-60 | the checksum value of the received frame has no effect on the result |
| HyundaiCan.LkasFieldsIgnoreStaleChecksum | selfdrive/car/hyundai/hyundaican.py:20 | the checksum field is zeroed before anything reads it |
| HyundaiCan.LaneDisplayEncoding | selfdrive/car/hyundai/hyundaican.py:23 | each of the four lane-flag combinations has its own value in 0..3: left adds 1 and right adds 2 |
| HyundaiCan.CreateClu11 | selfdrive/car/hyundai/hyundaican.py:64-69 | CLU11 writes exactly the button, speed and alive counter (frame modulo 16), leaves the rest as received, and is packed for the given bus |
| HyundaiCan.Scc12FieldsWritten | selfdrive/car/hyundai/hyundaican.py:72-77 | both acceleration limits carry the requested value iff enabled with ACC mode 1 and are otherwise left alone; the alive counter is written and the checksum zeroed; nothing else changes |
| HyundaiCan.CreateScc12 | selfdrive/car/hyundai/hyundaican.py:71-82 | SCC12 fails with a key error iff enabled and the received frame lacks the ACC mode; otherwise it holds the written fields and a valid nibble checksum in 1..16, sent on bus 0 |
| HyundaiCan.Scc12NibblesComplete | selfdrive/car/hyundai/hyundaican.py:79-80 | the sent checksum completes the nibble sum of the zero-checksum payload to a multiple of 16 |
| HyundaiCan.Scc12IgnoresStaleChecksum | selfdrive/car/hyundai/hyundaican.py:77-80 | the checksum value of the received frame has no effect on the result |
| HyundaiCan.Mdps12FieldsWritten | selfdrive/car/hyundai/hyundaican.py:85-89 | MDPS12 forces the override flags to 0 and 1, writes the counter as the frame modulo 256, zeroes the checksum, and leaves everything else as received |
| HyundaiCan.CreateMdps12 | selfdrive/car/hyundai/hyundaican.py:84-95 | the forwarded frame holds the written fields and a valid byte-sum checksum, sent on bus 2 |
| HyundaiCan.Mdps12IgnoresStaleChecksum | selfdrive/car/hyundai/hyundaican.py:89-93 | the checksum value of the received frame has no effect on the result |
| HyundaiCan.CreateLfaMfa | selfdrive/car/hyundai/hyundaican.py:97-115 | the frame holds exactly the active flag and the HDA setting 2, sent on bus 0 |

## Left out

- Alert texts, sizes, sound and HUD durations of most table entries: only a representative excerpt of the event table is modelled. The table is a parameter of every bookkeeping operation.
- The live messages that alert callbacks read, and their text formatting and unit conversion: a callback is a function from an opaque argument record to an alert.
- The `alert_type` tag that `create_alerts` writes onto a shared `Alert` object: the model returns the pair (event, category) with each alert, which carries the same information, and does not model the aliasing.
- `Alert.__str__` and the message-enum type checks in the `Alert` constructor.
- Floating-point rounding: Python's speeds, times and sums of them are IEEE doubles, and the model computes them as exact reals. A comparison within one rounding step of a threshold can therefore come out differently from the program. Examples are `vEgo` against `minSteerSpeed + 0.2` and `minSteerSpeed + 0.7` (selfdrive/car/hyundai/interface.py:246-248), `vEgo` against `LANE_CHANGE_SPEED_MIN - 1.2` (interface.py:235), and `DT_CTRL * (count + 1)` against the creation delay (selfdrive/controls/lib/events.py:78). With minSteerSpeed = 10.1 and vEgo = 10.299999999999999, say, `10.1 + 0.2` rounds to vEgo, so the program keeps the alert off while `LowSpeedAlert` raises it.
- `DT_CTRL` comes from a module that is not part of this model. It is the constant 0.01 s of a 100 Hz loop, and the gate lemmas hold for any positive period.
- `get_params` tuning (mass, wheelbase, gains, tire stiffness), `Params()` reads, the safety-model choice that depends on them, and `is_ecu_disconnected`: these are configuration tables and stored settings, not decision rules.
- CAN parsing, `CarState.update`, the car controller, `apply`, and message construction: these are I/O. The parsed values arrive as an input record.
- `create_common_events`: it lives in a shared base class that is not part of this model. Its output is an input.
- The LKAS on/off button alert: its update is commented out in the source, so the flag keeps its initial value. The model carries it as state and never changes it.
- Decoding the cancel button: it is commented out in the source. `buttonCancel` therefore never arises, and the model proves that.
- The packer's bit layout and the DBC, and the message addresses: the packer is an uninterpreted function parameter.
- The car lists of the checksum table and the cruise-button codes: they live in a values file that is not part of this model. They are inputs.
- The table-driven implementation inside `crcmod`: the CRC is computed bit by bit from its parameters instead.
- Aliasing of the caller's dict in the `create_*` builders (they write into it in place): the model returns the written map and does not model the mutation of the caller's object.
- HyundaiChecksum.Scc12Checksum: the value 16 does not fit the four-bit field. What reaches the bus then depends on how the packer truncates it, and the packer is not modelled.
- The `frame` argument of `create_lfa_mfa` is unused in the source; the model keeps it only for the signature.
- The controls state machine and any alert arbitration are not in these files.
