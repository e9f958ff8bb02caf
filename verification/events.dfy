/** Per-cycle event bookkeeping: the ordered list of active events, the
    latched ("static") events re-added on every clear, and the per-event
    count of consecutive earlier cycles the event was active in, which
    gates alerts that carry a creation delay. */
module Events {
  import opened Common
  import opened Alerts
  import opened EventTable

  /** Control period in seconds (the 100 Hz control loop). */
  const DT_CTRL: real := 0.01

  /** The bookkeeping state. `eventsPrev` is keyed by the events of the table. */
  datatype Events = Events(
    events: seq<EventName>,
    staticEvents: seq<EventName>,
    eventsPrev: map<EventName, nat>)

  /** An alert as raised for one (event, category) pair; the pair is what the
      program records in the alert's `alert_type` tag. */
  datatype RaisedAlert = RaisedAlert(event: EventName, category: Category, alert: Alert)

  /** One entry of the outgoing event message: the name and one flag per category. */
  datatype CarEvent = CarEvent(
    name: EventName,
    enable: bool, preEnable: bool, noEntry: bool, warning: bool,
    userDisable: bool, softDisable: bool, immediateDisable: bool, permanent: bool)

  /** The flag of `m` that belongs to category `c`. */
  function Flag(m: CarEvent, c: Category): bool {
    match c
    case Enable => m.enable
    case PreEnable => m.preEnable
    case NoEntry => m.noEntry
    case Warning => m.warning
    case UserDisable => m.userDisable
    case SoftDisable => m.softDisable
    case ImmediateDisable => m.immediateDisable
    case Permanent => m.permanent
  }

  /** A fresh bookkeeping state: nothing active, every table event at zero. */
  function Init(t: Table): (s: Events)
    ensures s.events == [] && s.staticEvents == []
    ensures s.eventsPrev.Keys == t.Keys
    ensures forall k :: k in s.eventsPrev ==> s.eventsPrev[k] == 0
  {
    Events([], [], map k | k in t :: 0)
  }

  /** `add`: append to the active list (duplicates kept) and, when static,
      to the latched list as well. The counters are untouched. */
  function Add(s: Events, e: EventName, isStatic: bool): (r: Events)
    ensures r.events == s.events + [e]
    ensures isStatic ==> r.staticEvents == s.staticEvents + [e]
    ensures !isStatic ==> r.staticEvents == s.staticEvents
    ensures r.eventsPrev == s.eventsPrev
  {
    Events(s.events + [e], if isStatic then s.staticEvents + [e] else s.staticEvents, s.eventsPrev)
  }

  /** Non-static `add` of each event of `es`, in order. */
  function AddAll(s: Events, es: seq<EventName>): (r: Events)
    ensures r.events == s.events + es
    ensures r.staticEvents == s.staticEvents && r.eventsPrev == s.eventsPrev
    decreases |es|
  {
    if es == [] then s
    else
      var r := AddAll(Add(s, es[0], false), es[1..]);
      assert s.events + [es[0]] + es[1..] == s.events + es;
      r
  }

  /** The counter update of `clear`: one more for each known event that was
      active, back to zero for every other known event. */
  function NextCounters(prev: map<EventName, nat>, active: seq<EventName>): (r: map<EventName, nat>)
    ensures r.Keys == prev.Keys
    ensures forall k :: k in r && k in active ==> r[k] == prev[k] + 1
    ensures forall k :: k in r && k !in active ==> r[k] == 0
  {
    map k | k in prev :: if k in active then prev[k] + 1 else 0
  }

  /** `clear`: advance the counters, then reset the active list to the latched list. */
  function Clear(s: Events): (r: Events)
    ensures r.events == r.staticEvents == s.staticEvents
    ensures r.eventsPrev.Keys == s.eventsPrev.Keys
    ensures forall k :: k in r.eventsPrev && k in s.events ==> r.eventsPrev[k] == s.eventsPrev[k] + 1
    ensures forall k :: k in r.eventsPrev && k !in s.events ==> r.eventsPrev[k] == 0
  {
    Events(s.staticEvents, s.staticEvents, NextCounters(s.eventsPrev, s.events))
  }

  /** `any`: some active event's table entry declares `et`. */
  method Any(t: Table, s: Events, et: Category) returns (found: bool)
    ensures found <==> exists i :: 0 <= i < |s.events| && Declares(t, s.events[i], et)
  {
    var i := 0;
    while i < |s.events|
      invariant 0 <= i <= |s.events|
      invariant forall j :: 0 <= j < i ==> !Declares(t, s.events[j], et)
    {
      if s.events[i] in t && et in t[s.events[i]] {
        return true;
      }
      i := i + 1;
    }
    return false;
  }

  /** The creation-delay gate: an event active now and in `counter`
      consecutive earlier cycles has been active for `dt * (counter + 1)` seconds. */
  predicate Gate(dt: real, counter: nat, delay: real) {
    dt * (counter + 1) as real >= delay
  }

  /** Obtain the alert of a table entry, calling the callback when it is one.
      Without callback arguments the callback is called with none and raises. */
  function Materialize(src: AlertSource, args: Option<CallbackArgs>): (r: Result<Alert>)
    ensures src.Static? ==> r == Ok(src.alert)
    ensures src.Computed? && args.Some? ==> r == Ok(src.make(args.value))
    ensures src.Computed? && args.None? ==> r == Err(MissingCallbackArgs)
  {
    match src
    case Static(a) => Ok(a)
    case Computed(f) => if args.Some? then Ok(f(args.value)) else Err(MissingCallbackArgs)
  }

  /** (e, et) raises alert `a`: the entry declares et, its alert is `a`, and
      the gate passes at e's counter. */
  predicate Qualifies(t: Table, prev: map<EventName, nat>, e: EventName, et: Category,
                      args: Option<CallbackArgs>, a: Alert) {
    && Declares(t, e, et)
    && e in prev
    && Materialize(t[e][et], args) == Ok(a)
    && Gate(DT_CTRL, prev[e], a.creationDelay)
  }

  /** The inner loop of `create_alerts` for one active event `e` (present in
      the table) over the requested categories `ets`, in order. */
  function AlertsFor(t: Table, prev: map<EventName, nat>, e: EventName, ets: seq<Category>,
                     args: Option<CallbackArgs>): Result<seq<RaisedAlert>>
    requires e in t
    decreases |ets|
  {
    if ets == [] then Ok([])
    else
      match AlertsFor(t, prev, e, ets[..|ets| - 1], args)
      case Err(x) => Err(x)
      case Ok(before) =>
        var et := ets[|ets| - 1];
        if et !in t[e] then Ok(before)
        else
          match Materialize(t[e][et], args)
          case Err(x) => Err(x)
          case Ok(a) =>
            if e !in prev then Err(KeyError)
            else if Gate(DT_CTRL, prev[e], a.creationDelay) then Ok(before + [RaisedAlert(e, et, a)])
            else Ok(before)
  }

  /** The outer loop of `create_alerts` over the active events `es`, in order;
      an event missing from the table raises. */
  function Collect(t: Table, prev: map<EventName, nat>, es: seq<EventName>, ets: seq<Category>,
                   args: Option<CallbackArgs>): Result<seq<RaisedAlert>>
    decreases |es|
  {
    if es == [] then Ok([])
    else
      match Collect(t, prev, es[..|es| - 1], ets, args)
      case Err(x) => Err(x)
      case Ok(before) =>
        var e := es[|es| - 1];
        if e !in t then Err(KeyError)
        else
          match AlertsFor(t, prev, e, ets, args)
          case Err(x) => Err(x)
          case Ok(mine) => Ok(before + mine)
  }

  /** An error in a prefix of the categories is the error of the whole loop. */
  lemma {:induction false} AlertsForErrorPropagates(t: Table, prev: map<EventName, nat>, e: EventName,
                                                     ets: seq<Category>, n: nat, args: Option<CallbackArgs>)
    requires e in t && n <= |ets|
    requires AlertsFor(t, prev, e, ets[..n], args).Err?
    ensures AlertsFor(t, prev, e, ets, args) == AlertsFor(t, prev, e, ets[..n], args)
    decreases |ets| - n
  {
    if n < |ets| {
      assert ets[..n + 1][..n] == ets[..n];
      AlertsForErrorPropagates(t, prev, e, ets, n + 1, args);
    } else {
      assert ets[..n] == ets;
    }
  }

  /** An error in a prefix of the events is the error of the whole loop. */
  lemma {:induction false} CollectErrorPropagates(t: Table, prev: map<EventName, nat>, es: seq<EventName>,
                                                  n: nat, ets: seq<Category>, args: Option<CallbackArgs>)
    requires n <= |es|
    requires Collect(t, prev, es[..n], ets, args).Err?
    ensures Collect(t, prev, es, ets, args) == Collect(t, prev, es[..n], ets, args)
    decreases |es| - n
  {
    if n < |es| {
      assert es[..n + 1][..n] == es[..n];
      CollectErrorPropagates(t, prev, es, n + 1, ets, args);
    } else {
      assert es[..n] == es;
    }
  }

  /** `create_alerts`: every alert of every active event for every requested
      category that passes its gate, in active-list order and then
      requested-category order, without arbitration or de-duplication. */
  method CreateAlerts(t: Table, s: Events, ets: seq<Category>, args: Option<CallbackArgs>)
    returns (r: Result<seq<RaisedAlert>>)
    ensures r == Collect(t, s.eventsPrev, s.events, ets, args)
  {
    var prev := s.eventsPrev;
    var ret: seq<RaisedAlert> := [];
    var i := 0;
    while i < |s.events|
      invariant 0 <= i <= |s.events|
      invariant Collect(t, prev, s.events[..i], ets, args) == Ok(ret)
    {
      var e := s.events[i];
      assert s.events[..i + 1][..i] == s.events[..i];
      if e !in t {
        CollectErrorPropagates(t, prev, s.events, i + 1, ets, args);
        return Err(KeyError);
      }
      ghost var before := ret;
      var j := 0;
      while j < |ets|
        invariant 0 <= j <= |ets|
        invariant AlertsFor(t, prev, e, ets[..j], args).Ok?
        invariant ret == before + AlertsFor(t, prev, e, ets[..j], args).value
      {
        var et := ets[j];
        assert ets[..j + 1][..j] == ets[..j];
        if et in t[e] {
          var src := t[e][et];
          var alert: Alert;
          match src {
            case Static(a) =>
              alert := a;
            case Computed(f) =>
              if args.None? {
                AlertsForErrorPropagates(t, prev, e, ets, j + 1, args);
                CollectErrorPropagates(t, prev, s.events, i + 1, ets, args);
                return Err(MissingCallbackArgs);
              }
              alert := f(args.value);
          }
          if e !in prev {
            AlertsForErrorPropagates(t, prev, e, ets, j + 1, args);
            CollectErrorPropagates(t, prev, s.events, i + 1, ets, args);
            return Err(KeyError);
          }
          if DT_CTRL * (prev[e] + 1) as real >= alert.creationDelay {
            ret := ret + [RaisedAlert(e, et, alert)];
          }
        }
        j := j + 1;
      }
      assert ets[..|ets|] == ets;
      i := i + 1;
    }
    assert s.events[..|s.events|] == s.events;
    return Ok(ret);
  }

  /** `to_msg`: one entry per active event, in order, whose set flags are
      exactly the categories the table declares for that event. */
  function ToMsg(t: Table, s: Events): (r: seq<CarEvent>)
    ensures |r| == |s.events|
    ensures forall i :: 0 <= i < |r| ==> r[i].name == s.events[i]
    ensures forall i, c :: 0 <= i < |r| ==> (Flag(r[i], c) <==> Declares(t, s.events[i], c))
  {
    seq(|s.events|, i requires 0 <= i < |s.events| =>
      var e := s.events[i];
      CarEvent(e,
        Declares(t, e, Enable), Declares(t, e, PreEnable), Declares(t, e, NoEntry),
        Declares(t, e, Warning), Declares(t, e, UserDisable), Declares(t, e, SoftDisable),
        Declares(t, e, ImmediateDisable), Declares(t, e, Permanent)))
  }

  // ---------------------------------------------------------------------
  // What create_alerts raises, and in which order

  /** For one event, the raised alerts are exactly the qualifying
      (e, et) pairs with et among the requested categories. */
  lemma {:induction false} AlertsForMembership(t: Table, prev: map<EventName, nat>, e: EventName,
                                               ets: seq<Category>, args: Option<CallbackArgs>, x: RaisedAlert)
    requires e in t
    requires AlertsFor(t, prev, e, ets, args).Ok?
    ensures x in AlertsFor(t, prev, e, ets, args).value <==>
              x.event == e && x.category in ets && Qualifies(t, prev, e, x.category, args, x.alert)
    decreases |ets|
  {
    if ets != [] {
      var init := ets[..|ets| - 1];
      var et := ets[|ets| - 1];
      AlertsForLast(t, prev, e, ets, args, x);
      AlertsForMembership(t, prev, e, init, args, x);
      assert x.category in ets <==> x.category in init || x.category == et by {
        assert ets == init + [et];
      }
    }
  }

  /** The last requested category adds at most its own qualifying alert. */
  lemma AlertsForLast(t: Table, prev: map<EventName, nat>, e: EventName, ets: seq<Category>,
                      args: Option<CallbackArgs>, x: RaisedAlert)
    requires e in t && ets != []
    requires AlertsFor(t, prev, e, ets, args).Ok?
    ensures AlertsFor(t, prev, e, ets[..|ets| - 1], args).Ok?
    ensures x in AlertsFor(t, prev, e, ets, args).value <==>
              x in AlertsFor(t, prev, e, ets[..|ets| - 1], args).value
              || (x.event == e && x.category == ets[|ets| - 1] && Qualifies(t, prev, e, ets[|ets| - 1], args, x.alert))
  {
  }

  /** `create_alerts` raises alert `x` iff its event is active, its category
      is requested, the table declares that category for the event, the
      alert is the entry's alert, and the creation-delay gate passes. */
  lemma {:induction false} CreateAlertsMembership(t: Table, prev: map<EventName, nat>, es: seq<EventName>,
                                                  ets: seq<Category>, args: Option<CallbackArgs>, x: RaisedAlert)
    requires Collect(t, prev, es, ets, args).Ok?
    ensures x in Collect(t, prev, es, ets, args).value <==>
              x.event in es && x.category in ets && Qualifies(t, prev, x.event, x.category, args, x.alert)
    decreases |es|
  {
    if es != [] {
      var init := es[..|es| - 1];
      var e := es[|es| - 1];
      assert es == init + [e];
      CreateAlertsMembership(t, prev, init, ets, args, x);
      AlertsForMembership(t, prev, e, ets, args, x);
      if x in Collect(t, prev, es, ets, args).value && x.event !in init {
        assert x.event == e;
      }
    }
  }

  /** Alerts of earlier active events come first: the alerts for a prefix of
      the active list are a prefix of the alerts for the whole list. */
  lemma {:induction false} EarlierEventsAlertFirst(t: Table, prev: map<EventName, nat>, es1: seq<EventName>,
                                                   es2: seq<EventName>, ets: seq<Category>, args: Option<CallbackArgs>)
    requires Collect(t, prev, es1 + es2, ets, args).Ok?
    ensures Collect(t, prev, es1, ets, args).Ok?
    ensures Collect(t, prev, es1, ets, args).value <= Collect(t, prev, es1 + es2, ets, args).value
    decreases |es2|
  {
    if es2 != [] {
      var es := es1 + es2;
      assert es[..|es| - 1] == es1 + es2[..|es2| - 1];
      EarlierEventsAlertFirst(t, prev, es1, es2[..|es2| - 1], ets, args);
    } else {
      assert es1 + es2 == es1;
    }
  }

  /** Within one event, alerts of earlier requested categories come first:
      the alerts for a prefix of the categories are a prefix of the alerts
      for all of them. */
  lemma {:induction false} AlertsForEarlierCategoriesFirst(t: Table, prev: map<EventName, nat>, e: EventName,
                                                           ets1: seq<Category>, ets2: seq<Category>,
                                                           args: Option<CallbackArgs>)
    requires e in t
    requires AlertsFor(t, prev, e, ets1 + ets2, args).Ok?
    ensures AlertsFor(t, prev, e, ets1, args).Ok?
    ensures AlertsFor(t, prev, e, ets1, args).value <= AlertsFor(t, prev, e, ets1 + ets2, args).value
    decreases |ets2|
  {
    if ets2 != [] {
      var ets := ets1 + ets2;
      assert ets[..|ets| - 1] == ets1 + ets2[..|ets2| - 1];
      AlertsForEarlierCategoriesFirst(t, prev, e, ets1, ets2[..|ets2| - 1], args);
    } else {
      assert ets1 + ets2 == ets1;
    }
  }

  /** Nothing is merged or arbitrated: an active event listed twice raises
      its alerts twice, after everything raised for the events before it. */
  lemma DuplicatesAreKept(t: Table, prev: map<EventName, nat>, es: seq<EventName>, e: EventName,
                          ets: seq<Category>, args: Option<CallbackArgs>)
    requires Collect(t, prev, es + [e], ets, args).Ok?
    ensures Collect(t, prev, es + [e, e], ets, args).Ok?
    ensures var once := Collect(t, prev, es + [e], ets, args).value;
            Collect(t, prev, es + [e, e], ets, args).value == once + once[|Collect(t, prev, es, ets, args).value|..]
  {
    var twice := es + [e, e];
    assert twice[..|twice| - 1] == es + [e];
    assert (es + [e])[..|es|] == es;
  }

  /** With callback arguments supplied and every table event counted,
      `create_alerts` raises an exception iff some active event is missing
      from the table. */
  lemma {:induction false} CreateAlertsFailsOnlyOnUnknownEvent(t: Table, prev: map<EventName, nat>,
                                                               es: seq<EventName>, ets: seq<Category>,
                                                               args: Option<CallbackArgs>)
    requires args.Some? && t.Keys <= prev.Keys
    ensures Collect(t, prev, es, ets, args).Ok? <==> forall i :: 0 <= i < |es| ==> es[i] in t
    ensures Collect(t, prev, es, ets, args).Err? ==> Collect(t, prev, es, ets, args).error == KeyError
    decreases |es|
  {
    if es != [] {
      var init := es[..|es| - 1];
      var e := es[|es| - 1];
      CreateAlertsFailsOnlyOnUnknownEvent(t, prev, init, ets, args);
      if e in t {
        AlertsForNeverFails(t, prev, e, ets, args);
      }
    }
  }

  lemma {:induction false} AlertsForNeverFails(t: Table, prev: map<EventName, nat>, e: EventName,
                                               ets: seq<Category>, args: Option<CallbackArgs>)
    requires args.Some? && e in t && e in prev
    ensures AlertsFor(t, prev, e, ets, args).Ok?
    decreases |ets|
  {
    if ets != [] {
      AlertsForNeverFails(t, prev, e, ets[..|ets| - 1], args);
    }
  }

  /** Without callback arguments, reaching a callback entry raises. */
  lemma CallbackWithoutArgumentsRaises(t: Table, prev: map<EventName, nat>, e: EventName, et: Category)
    requires e in t && et in t[e] && t[e][et].Computed?
    ensures Collect(t, prev, [e], [et], None) == Err(MissingCallbackArgs)
  {
    assert [e][..0] == [];
    assert [et][..0] == [];
    assert AlertsFor(t, prev, e, [], None) == Ok([]);
    assert Materialize(t[e][et], None) == Err(MissingCallbackArgs);
    assert AlertsFor(t, prev, e, [et], None) == Err(MissingCallbackArgs);
  }

  // ---------------------------------------------------------------------
  // The creation-delay gate

  /** An alert without a creation delay passes the gate at every counter. */
  lemma ZeroDelayAlwaysPasses(dt: real, counter: nat)
    requires dt > 0.0
    ensures Gate(dt, counter, 0.0)
  {
  }

  /** The gate is monotone in the counter: once passed, it stays passed
      while the counter grows. */
  lemma GateMonotone(dt: real, n: nat, m: nat, delay: real)
    requires dt > 0.0 && n <= m
    requires Gate(dt, n, delay)
    ensures Gate(dt, m, delay)
  {
    assert dt * (m + 1) as real == dt * (n + 1) as real + dt * (m - n) as real;
  }

  /** An event whose alert has passed the gate keeps passing it after a
      `clear` for as long as the event stays active. */
  lemma GatePassesWhileActive(s: Events, e: EventName, delay: real)
    requires e in s.events && e in s.eventsPrev
    requires Gate(DT_CTRL, s.eventsPrev[e], delay)
    ensures e in Clear(s).eventsPrev
    ensures Gate(DT_CTRL, Clear(s).eventsPrev[e], delay)
  {
    GateMonotone(DT_CTRL, s.eventsPrev[e], Clear(s).eventsPrev[e], delay);
  }

  // ---------------------------------------------------------------------
  // Counters measure continuous presence

  /** Number of trailing entries of `hist` that contain `k`. */
  function Streak(hist: seq<seq<EventName>>, k: EventName): nat
    decreases |hist|
  {
    if hist == [] then 0
    else if k in hist[|hist| - 1] then Streak(hist[..|hist| - 1], k) + 1
    else 0
  }

  /** The counters after one `clear` per entry of `hist`, each entry being
      the active list at that `clear`. */
  function CountersAfter(prev: map<EventName, nat>, hist: seq<seq<EventName>>): (r: map<EventName, nat>)
    ensures r.Keys == prev.Keys
    decreases |hist|
  {
    if hist == [] then prev
    else NextCounters(CountersAfter(prev, hist[..|hist| - 1]), hist[|hist| - 1])
  }

  /** A counter equals the event's current streak of consecutive active
      cycles; a single absence resets it, whatever the earlier streak. Only
      an event active in every cycle carries its starting value along. */
  lemma {:induction false} CountersCountStreak(prev: map<EventName, nat>, hist: seq<seq<EventName>>, k: EventName)
    requires k in prev
    ensures k in CountersAfter(prev, hist)
    ensures Streak(hist, k) < |hist| ==> CountersAfter(prev, hist)[k] == Streak(hist, k)
    ensures Streak(hist, k) == |hist| ==> CountersAfter(prev, hist)[k] == prev[k] + |hist|
    decreases |hist|
  {
    if hist != [] {
      CountersCountStreak(prev, hist[..|hist| - 1], k);
    }
  }

  /** One control cycle of bookkeeping: `clear`, then add this cycle's events. */
  function Cycle(s: Events, adds: seq<EventName>): (r: Events)
    ensures r.events == s.staticEvents + adds
    ensures r.staticEvents == s.staticEvents
    ensures r.eventsPrev == NextCounters(s.eventsPrev, s.events)
  {
    AddAll(Clear(s), adds)
  }

  /** Runs cycles from a fresh state; cycle i adds the events `cycles[i]`. */
  function RunCycles(t: Table, cycles: seq<seq<EventName>>): (r: Events)
    ensures r.staticEvents == [] && r.eventsPrev.Keys == t.Keys
    ensures cycles != [] ==> r.events == cycles[|cycles| - 1]
    decreases |cycles|
  {
    if cycles == [] then Init(t)
    else Cycle(RunCycles(t, cycles[..|cycles| - 1]), cycles[|cycles| - 1])
  }

  /** One more cycle advances the counters over the previous cycle's list. */
  lemma RunCyclesStep(t: Table, cycles: seq<seq<EventName>>)
    requires |cycles| >= 2
    ensures RunCycles(t, cycles).eventsPrev
            == NextCounters(RunCycles(t, cycles[..|cycles| - 1]).eventsPrev, cycles[|cycles| - 2])
  {
    var init := cycles[..|cycles| - 1];
    assert init[|init| - 1] == cycles[|cycles| - 2];
  }

  /** One more history entry is one more `clear` on the counters so far. */
  lemma CountersAfterSnoc(prev: map<EventName, nat>, hist: seq<seq<EventName>>, active: seq<EventName>)
    ensures CountersAfter(prev, hist + [active]) == NextCounters(CountersAfter(prev, hist), active)
  {
    assert (hist + [active])[..|hist|] == hist;
  }

  /** The counters of a run are those of a fresh state advanced over an
      empty first list (nothing was active before the first cycle) and then
      every cycle's list but the last. */
  lemma {:induction false} RunCyclesCounters(t: Table, cycles: seq<seq<EventName>>)
    requires cycles != []
    ensures RunCycles(t, cycles).eventsPrev == CountersAfter(Init(t).eventsPrev, [[]] + cycles[..|cycles| - 1])
    decreases |cycles|
  {
    var n := |cycles|;
    var p0 := Init(t).eventsPrev;
    if n == 1 {
      assert [[]] + cycles[..0] == [] + [[]];
    } else {
      var init := cycles[..n - 1];
      var h := [[]] + cycles[..n - 2];
      RunCyclesCounters(t, init);
      assert init[..|init| - 1] == cycles[..n - 2];
      RunCyclesStep(t, cycles);
      CountersAfterSnoc(p0, h, cycles[n - 2]);
      assert [[]] + cycles[..n - 1] == h + [cycles[n - 2]];
    }
  }

  lemma {:induction false} StreakAfterEmptyCycle(hist: seq<seq<EventName>>, k: EventName)
    ensures Streak([[]] + hist, k) == Streak(hist, k)
    decreases |hist|
  {
    if hist != [] {
      var h := [[]] + hist;
      assert h[..|h| - 1] == [[]] + hist[..|hist| - 1];
      StreakAfterEmptyCycle(hist[..|hist| - 1], k);
    } else {
      assert [[]] + hist == [[]];
      assert ([[]] + hist)[..0] == [];
    }
  }

  /** Running the bookkeeping from a fresh state, an event active in the
      latest cycle has counter + 1 equal to the number of consecutive cycles,
      ending with the latest, in which it was active. So its gate with period
      DT_CTRL passes iff that many cycles span at least the creation delay. */
  lemma ContinuousPresenceGate(t: Table, cycles: seq<seq<EventName>>, e: EventName, delay: real)
    requires e in t && cycles != [] && e in cycles[|cycles| - 1]
    ensures e in RunCycles(t, cycles).eventsPrev
    ensures RunCycles(t, cycles).eventsPrev[e] + 1 == Streak(cycles, e)
    ensures Gate(DT_CTRL, RunCycles(t, cycles).eventsPrev[e], delay) <==> DT_CTRL * Streak(cycles, e) as real >= delay
  {
    var n := |cycles|;
    var hist := [[]] + cycles[..n - 1];
    var prev := RunCycles(t, cycles).eventsPrev;
    RunCyclesCounters(t, cycles);
    assert prev == CountersAfter(Init(t).eventsPrev, hist);
    CountersCountStreak(Init(t).eventsPrev, hist, e);
    StreakAfterEmptyCycle(cycles[..n - 1], e);
    StreakBound(cycles[..n - 1], e);
    assert prev[e] == Streak(cycles[..n - 1], e);
    assert cycles[..n - 1] == cycles[..|cycles| - 1];
    assert Streak(cycles, e) == Streak(cycles[..n - 1], e) + 1;
  }

  lemma {:induction false} StreakBound(hist: seq<seq<EventName>>, k: EventName)
    ensures Streak(hist, k) <= |hist|
    decreases |hist|
  {
    if hist != [] {
      StreakBound(hist[..|hist| - 1], k);
    }
  }

  // ---------------------------------------------------------------------
  // Latching

  /** A call on the bookkeeping state. */
  datatype Op = AddOp(e: EventName, isStatic: bool) | ClearOp

  function Step(s: Events, op: Op): Events {
    match op
    case AddOp(e, st) => Add(s, e, st)
    case ClearOp => Clear(s)
  }

  function Run(s: Events, ops: seq<Op>): Events
    decreases |ops|
  {
    if ops == [] then s else Run(Step(s, ops[0]), ops[1..])
  }

  /** The latched list only ever grows at its end, the set of counted events
      never changes, and right after a `clear` the active list is exactly the
      latched list, so every event once added as static is active again. */
  lemma {:induction false} StaticEventsLatch(s: Events, ops: seq<Op>)
    ensures s.staticEvents <= Run(s, ops).staticEvents
    ensures Run(s, ops).eventsPrev.Keys == s.eventsPrev.Keys
    ensures ops != [] && ops[|ops| - 1] == ClearOp ==>
              Run(s, ops).events == Run(s, ops).staticEvents
              && forall e :: e in s.staticEvents ==> e in Run(s, ops).events
    decreases |ops|
  {
    if ops != [] {
      StaticEventsLatch(Step(s, ops[0]), ops[1..]);
      if ops[|ops| - 1] == ClearOp && |ops| == 1 {
        assert Run(s, ops) == Clear(s);
      } else if ops[|ops| - 1] == ClearOp {
        assert ops[1..][|ops[1..]| - 1] == ClearOp;
      }
      forall e | e in s.staticEvents && ops[|ops| - 1] == ClearOp
        ensures e in Run(s, ops).events
      {
        var i :| 0 <= i < |s.staticEvents| && s.staticEvents[i] == e;
        assert Run(s, ops).staticEvents[i] == e;
      }
    }
  }

  /** `any` and `to_msg` agree: a category is present in some active event
      iff some entry of the outgoing message has its flag set. */
  lemma AnyAgreesWithMessage(t: Table, s: Events, et: Category)
    ensures (exists i :: 0 <= i < |s.events| && Declares(t, s.events[i], et)) <==>
            (exists i :: 0 <= i < |ToMsg(t, s)| && Flag(ToMsg(t, s)[i], et))
  {
    var m := ToMsg(t, s);
    if exists i :: 0 <= i < |s.events| && Declares(t, s.events[i], et) {
      var i :| 0 <= i < |s.events| && Declares(t, s.events[i], et);
      assert Flag(m[i], et);
    }
  }
}
