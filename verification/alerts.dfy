/** Driver-facing alerts: the priority scale, the alert record, the four
    preset constructors, and the priority-only comparison operators. */
module Alerts {

  /** Alert priorities (a larger number wins). */
  const LOWEST: int := 0
  const LOWER: int := 1
  const LOW: int := 2
  const MID: int := 3
  const HIGH: int := 4
  const HIGHEST: int := 5

  datatype AlertStatus = Normal | UserPrompt | Critical

  datatype AlertSize = SizeNone | Small | Mid | Full

  datatype VisualAlert = VisualNone | SteerRequired | BrakePressed

  datatype AudibleAlert =
    | AudibleNone | ChimeEngage | ChimeDisengage | ChimeError
    | ChimePrompt | ChimeWarning1 | ChimeWarningRepeat

  /** An alert with its localized texts left out. Durations, rate and
      creation delay are in seconds. */
  datatype Alert = Alert(
    status: AlertStatus,
    size: AlertSize,
    priority: int,
    visual: VisualAlert,
    audible: AudibleAlert,
    durationSound: real,
    durationHudAlert: real,
    durationText: real,
    alertRate: real,
    creationDelay: real)

  /** The constructor with its two defaulted arguments left at their
      defaults: no repeat rate and no creation delay. */
  function MakeAlert(status: AlertStatus, size: AlertSize, priority: int,
                     visual: VisualAlert, audible: AudibleAlert,
                     durationSound: real, durationHudAlert: real, durationText: real): (a: Alert)
    ensures a.priority == priority && a.status == status
    ensures a.alertRate == 0.0 && a.creationDelay == 0.0
  {
    Alert(status, size, priority, visual, audible, durationSound, durationHudAlert, durationText, 0.0, 0.0)
  }

  /** Shown when engagement is refused. */
  function NoEntryAlert(audible: AudibleAlert, visual: VisualAlert, durationHudAlert: real): (a: Alert)
    ensures a.priority == LOW && a.status == Normal && a.size == Mid
    ensures a.audible == audible && a.visual == visual && a.durationHudAlert == durationHudAlert
    ensures a.creationDelay == 0.0
  {
    MakeAlert(Normal, Mid, LOW, visual, audible, 0.4, durationHudAlert, 3.0)
  }

  /** NoEntryAlert with its default sound, visual and HUD duration. */
  function DefaultNoEntryAlert(): (a: Alert)
    ensures a.priority == LOW && a.audible == ChimeError && a.visual == VisualNone
    ensures a.durationHudAlert == 2.0
  {
    NoEntryAlert(ChimeError, VisualNone, 2.0)
  }

  /** Shown while control is being handed back to the driver. */
  function SoftDisableAlert(): (a: Alert)
    ensures a.priority == MID && a.status == Critical && a.size == Full
    ensures a.visual == SteerRequired && a.audible == ChimeWarningRepeat
    ensures a.creationDelay == 0.0
  {
    MakeAlert(Critical, Full, MID, SteerRequired, ChimeWarningRepeat, 0.1, 2.0, 2.0)
  }

  /** Shown when control is dropped at once. */
  function ImmediateDisableAlert(): (a: Alert)
    ensures a.priority == HIGHEST && a.status == Critical && a.size == Full
    ensures a.visual == SteerRequired && a.audible == ChimeWarningRepeat
    ensures a.creationDelay == 0.0
  {
    MakeAlert(Critical, Full, HIGHEST, SteerRequired, ChimeWarningRepeat, 2.2, 3.0, 4.0)
  }

  /** The silent-screen alert that only plays the engage/disengage sound. */
  function EngagementAlert(audible: AudibleAlert): (a: Alert)
    ensures a.priority == MID && a.status == Normal && a.size == SizeNone
    ensures a.audible == audible && a.visual == VisualNone
    ensures a.creationDelay == 0.0
  {
    MakeAlert(Normal, SizeNone, MID, VisualNone, audible, 0.2, 0.0, 0.0)
  }

  // The comparison operators. The class defines only `>` and `==`, both on
  // the priority alone; the ordering decorator derives the other three from
  // those two, and `!=` is the negation of `==`.

  predicate Gt(a: Alert, b: Alert) {
    a.priority > b.priority
  }

  predicate Eq(a: Alert, b: Alert) {
    a.priority == b.priority
  }

  predicate Ne(a: Alert, b: Alert) {
    !Eq(a, b)
  }

  predicate Lt(a: Alert, b: Alert) {
    !Gt(a, b) && Ne(a, b)
  }

  predicate Ge(a: Alert, b: Alert) {
    Gt(a, b) || Eq(a, b)
  }

  predicate Le(a: Alert, b: Alert) {
    !Gt(a, b)
  }

  /** Every comparison operator is the matching comparison of priorities:
      nothing but the priority is ever consulted. */
  lemma ComparisonIsPriorityComparison(a: Alert, b: Alert)
    ensures Lt(a, b) <==> a.priority < b.priority
    ensures Le(a, b) <==> a.priority <= b.priority
    ensures Ge(a, b) <==> a.priority >= b.priority
    ensures Ne(a, b) <==> a.priority != b.priority
  {
  }

  /** `<` is a strict weak order: irreflexive, transitive, and alerts that
      are mutually incomparable (equal priority) form equivalence classes. */
  lemma LtIsStrictWeakOrder(a: Alert, b: Alert, c: Alert)
    ensures !Lt(a, a)
    ensures Lt(a, b) && Lt(b, c) ==> Lt(a, c)
    ensures Lt(a, b) ==> !Lt(b, a)
    ensures !Lt(a, b) && !Lt(b, a) && !Lt(b, c) && !Lt(c, b) ==> !Lt(a, c) && !Lt(c, a)
    ensures Lt(a, b) || Lt(b, a) || Eq(a, b)
  {
  }

  /** Two alerts that differ in everything but priority compare equal. */
  lemma EqualityIgnoresContents(a: Alert, b: Alert)
    requires a.priority == b.priority && a != b
    ensures Eq(a, b) && !Lt(a, b) && !Gt(a, b)
  {
  }

  /** The presets rank immediate-disable above soft-disable and engagement
      (which tie), and those above no-entry, whatever their arguments. */
  lemma PresetRanking(engage: AudibleAlert, noEntryAudible: AudibleAlert,
                      noEntryVisual: VisualAlert, noEntryHud: real)
    ensures Gt(ImmediateDisableAlert(), SoftDisableAlert())
    ensures Gt(ImmediateDisableAlert(), EngagementAlert(engage))
    ensures Eq(SoftDisableAlert(), EngagementAlert(engage))
    ensures Gt(EngagementAlert(engage), NoEntryAlert(noEntryAudible, noEntryVisual, noEntryHud))
    ensures Lt(NoEntryAlert(noEntryAudible, noEntryVisual, noEntryHud), SoftDisableAlert())
  {
  }
}
