/**
 * The per-battery notification latches. Each of the four notification classes
 * has a latch bit per battery; one poll feeds the battery's reading, the plug
 * state and the old bit to that class's check, which returns the new bit and
 * the notification it sends, if any.
 */
module Rules {
  import opened Wrappers
  import opened Sysfs

  const LowThreshold := 20
  const HighThreshold := 85
  const UnplugThreshold := 95
  const FullThreshold := 100

  datatype Kind = Low | High | Unplug | Full

  datatype Urgency = Normal | Critical

  /**
   * One desktop notification as the monitor hands it to `notify-send`: its class,
   * the battery and charge it reports, urgency, icon name and display time in
   * milliseconds (0: stays until dismissed).
   */
  datatype Notification = Notification(
    kind: Kind, battery: string, percent: int, urgency: Urgency, icon: string, timeoutMs: int)

  /** The new latch bit and the notification sent while computing it. */
  datatype Update = Update(latch: bool, sent: Option<Notification>)

  /** The notifications an update sent: none or one. */
  function Sent(u: Update): seq<Notification> {
    if u.sent.Some? then [u.sent.value] else []
  }

  /** The icon table entry for each class. */
  function Icon(k: Kind): string {
    match k
    case Low => "battery-caution"
    case High => "battery-good"
    case Unplug => "battery-full-charged"
    case Full => "battery-full"
  }

  /**
   * The notification each check sends, with the urgency and timeout of its call
   * site. It reports its own class, battery and charge; the two sticky classes
   * (timeout 0) are exactly the critical ones, low charge and full charge.
   */
  function Notify(k: Kind, battery: string, p: int): (r: Notification)
    ensures r.kind == k && r.battery == battery && r.percent == p
    ensures r.timeoutMs == 0 <==> r.urgency == Critical
    ensures r.urgency == Critical <==> k == Low || k == Full
    ensures r.timeoutMs >= 0
  {
    match k
    case Low => Notification(Low, battery, p, Critical, Icon(Low), 0)
    case High => Notification(High, battery, p, Normal, Icon(High), 10000)
    case Unplug => Notification(Unplug, battery, p, Normal, Icon(Unplug), 12000)
    case Full => Notification(Full, battery, p, Critical, Icon(Full), 0)
  }

  // ------------------------------------------------- reference latch machine

  /** The condition that makes class `k` fire. */
  predicate Trigger(k: Kind, p: int, plugged: bool) {
    match k
    case Low => p <= LowThreshold && !plugged
    case High => plugged && p >= HighThreshold
    case Unplug => plugged && p >= UnplugThreshold
    case Full => plugged && p >= FullThreshold
  }

  /** The condition that re-arms a fired latch of class `k`. */
  predicate Reset(k: Kind, p: int, plugged: bool) {
    match k
    case Low => plugged
    case High => !plugged
    case Unplug => !plugged || p < UnplugThreshold
    case Full => !plugged || p < FullThreshold
  }

  /**
   * The latch machine stated once for every class: an unknown charge changes
   * nothing; a clear latch whose trigger holds fires and latches; a set latch
   * whose reset holds clears silently; otherwise nothing changes.
   */
  function Evaluate(k: Kind, bat: Reading, plugged: bool, latch: bool): Update {
    match bat.percent
    case None => Update(latch, None)
    case Some(p) =>
      if !latch && Trigger(k, p, plugged) then Update(true, Some(Notify(k, bat.name, p)))
      else if latch && Reset(k, p, plugged) then Update(false, None)
      else Update(latch, None)
  }

  // ------------------------------------------------------------ the checks

  /** `check_low`: fire at 20% or less while unplugged; any plugged poll clears the latch. */
  function CheckLow(bat: Reading, plugged: bool, notified: bool): (u: Update)
    ensures u == Evaluate(Low, bat, plugged, notified)
  {
    match bat.percent
    case None => Update(notified, None)
    case Some(p) =>
      if p <= LowThreshold && !plugged && !notified then Update(true, Some(Notify(Low, bat.name, p)))
      else Update(if plugged then false else notified, None)
  }

  /** `check_high`: fire at 85% or more while plugged; only an unplugged poll clears the latch. */
  function CheckHigh(bat: Reading, plugged: bool, notified: bool): (u: Update)
    ensures u == Evaluate(High, bat, plugged, notified)
  {
    match bat.percent
    case None => Update(notified, None)
    case Some(p) =>
      if plugged && p >= HighThreshold && !notified then Update(true, Some(Notify(High, bat.name, p)))
      else Update(if !plugged then false else notified, None)
  }

  /** `check_unplug`: fire at 95% or more while plugged; unplugging or dropping below 95% clears the latch. */
  function CheckUnplug(bat: Reading, plugged: bool, notified: bool): (u: Update)
    ensures u == Evaluate(Unplug, bat, plugged, notified)
  {
    match bat.percent
    case None => Update(notified, None)
    case Some(p) =>
      if plugged && p >= UnplugThreshold && !notified then Update(true, Some(Notify(Unplug, bat.name, p)))
      else Update(if !plugged || p < UnplugThreshold then false else notified, None)
  }

  /** `check_full`: fire at 100% or more while plugged; unplugging or dropping below 100% clears the latch. */
  function CheckFull(bat: Reading, plugged: bool, notified: bool): (u: Update)
    ensures u == Evaluate(Full, bat, plugged, notified)
  {
    match bat.percent
    case None => Update(notified, None)
    case Some(p) =>
      if plugged && p >= FullThreshold && !notified then Update(true, Some(Notify(Full, bat.name, p)))
      else Update(if !plugged || p < FullThreshold then false else notified, None)
  }

  /** The check of class `k`. */
  function Check(k: Kind, bat: Reading, plugged: bool, notified: bool): Update {
    match k
    case Low => CheckLow(bat, plugged, notified)
    case High => CheckHigh(bat, plugged, notified)
    case Unplug => CheckUnplug(bat, plugged, notified)
    case Full => CheckFull(bat, plugged, notified)
  }

  // ----------------------------------------------------- one-poll properties

  /** With the charge unknown every check keeps its latch and sends nothing. */
  lemma UnknownChargeKeepsLatch(k: Kind, bat: Reading, plugged: bool, notified: bool)
    requires bat.percent == None
    ensures Check(k, bat, plugged, notified) == Update(notified, None)
  {
  }

  /**
   * A check sends at most one notification, exactly when its latch was clear and
   * its trigger holds, and that notification reports this class, battery and charge.
   */
  lemma FiresIff(k: Kind, bat: Reading, plugged: bool, notified: bool)
    ensures var u := Check(k, bat, plugged, notified);
      u.sent.Some? <==> bat.percent.Some? && !notified && Trigger(k, bat.percent.value, plugged)
    ensures var u := Check(k, bat, plugged, notified);
      u.sent.Some? ==> u.latch && u.sent.value == Notify(k, bat.name, bat.percent.value)
  {
  }

  /**
   * `check_low` with a known charge: it fires exactly at 20% or less, unplugged,
   * latch clear; plugged it always clears; unplugged without firing it keeps the
   * latch, so charge rising above 20% without a charger does not re-arm it.
   */
  lemma LowRule(bat: Reading, plugged: bool, notified: bool)
    requires bat.percent.Some?
    ensures var u := CheckLow(bat, plugged, notified);
      u.sent.Some? <==> bat.percent.value <= 20 && !plugged && !notified
    ensures plugged ==> !CheckLow(bat, plugged, notified).latch
    ensures !plugged && CheckLow(bat, plugged, notified).sent.None? ==> CheckLow(bat, plugged, notified).latch == notified
  {
  }

  /** `check_high` fires exactly at 85% or more, plugged, latch clear; a set latch clears only on unplug, whatever the charge. */
  lemma HighRule(bat: Reading, plugged: bool, notified: bool)
    requires bat.percent.Some?
    ensures CheckHigh(bat, plugged, notified).sent.Some? <==> plugged && bat.percent.value >= 85 && !notified
    ensures notified ==> CheckHigh(bat, plugged, notified).latch == plugged
  {
  }

  /** `check_unplug` fires exactly at 95% or more, plugged, latch clear; a set latch clears on unplug or below 95%. */
  lemma UnplugRule(bat: Reading, plugged: bool, notified: bool)
    requires bat.percent.Some?
    ensures CheckUnplug(bat, plugged, notified).sent.Some? <==> plugged && bat.percent.value >= 95 && !notified
    ensures notified ==> CheckUnplug(bat, plugged, notified).latch == (plugged && bat.percent.value >= 95)
  {
  }

  /** `check_full` fires exactly at 100% or more, plugged, latch clear; a set latch clears on unplug or below 100%. */
  lemma FullRule(bat: Reading, plugged: bool, notified: bool)
    requires bat.percent.Some?
    ensures CheckFull(bat, plugged, notified).sent.Some? <==> plugged && bat.percent.value >= 100 && !notified
    ensures notified ==> CheckFull(bat, plugged, notified).latch == (plugged && bat.percent.value >= 100)
  {
  }

  /** At 100%, plugged, with clear latches, the high, unplug and full classes all fire in the same poll, and low does not. */
  lemma FullChargeFiresThree(bat: Reading)
    requires bat.percent == Some(100)
    ensures CheckHigh(bat, true, false).sent.Some?
    ensures CheckUnplug(bat, true, false).sent.Some?
    ensures CheckFull(bat, true, false).sent.Some?
    ensures CheckLow(bat, true, false).sent.None?
  {
  }

  /** Re-applying a check to the same reading with the latch it returned changes nothing and sends nothing. */
  lemma CheckIdempotent(k: Kind, bat: Reading, plugged: bool, notified: bool)
    ensures var u := Check(k, bat, plugged, notified);
      Check(k, bat, plugged, u.latch) == Update(u.latch, None)
  {
  }

  /** No reading both triggers and resets a class. */
  lemma TriggerExcludesReset(k: Kind, p: int, plugged: bool)
    ensures !(Trigger(k, p, plugged) && Reset(k, p, plugged))
  {
  }

  // ----------------------------------------------------- runs of many polls

  /** One poll's input to one battery's check: its reading and the plug state. */
  datatype Sample = Sample(bat: Reading, plugged: bool)

  predicate TriggerStep(k: Kind, s: Sample) {
    s.bat.percent.Some? && Trigger(k, s.bat.percent.value, s.plugged)
  }

  predicate ResetStep(k: Kind, s: Sample) {
    s.bat.percent.Some? && Reset(k, s.bat.percent.value, s.plugged)
  }

  /** Feeding a trace of samples to the check of class `k`: the final latch and the notifications sent, in order. */
  function Run(k: Kind, trace: seq<Sample>, latch: bool): (bool, seq<Notification>)
    decreases |trace|
  {
    if trace == [] then (latch, [])
    else
      var u := Check(k, trace[0].bat, trace[0].plugged, latch);
      var rest := Run(k, trace[1..], u.latch);
      (rest.0, Sent(u) + rest.1)
  }

  /**
   * At most once per interval without a reset: over polls none of which meets
   * the class's reset condition, the class notifies at most once, never when
   * it starts latched, and ends latched exactly when it started so or notified.
   */
  lemma {:induction false} AtMostOnceWithoutReset(k: Kind, trace: seq<Sample>, latch: bool)
    requires forall i :: 0 <= i < |trace| ==> !ResetStep(k, trace[i])
    ensures |Run(k, trace, latch).1| <= 1
    ensures latch ==> Run(k, trace, latch).1 == []
    ensures Run(k, trace, latch).0 == (latch || |Run(k, trace, latch).1| == 1)
  {
    if trace != [] {
      var u := Check(k, trace[0].bat, trace[0].plugged, latch);
      assert !ResetStep(k, trace[0]);
      assert u.sent.Some? ==> u.latch;
      assert latch ==> u.latch;
      AtMostOnceWithoutReset(k, trace[1..], u.latch);
    }
  }

  /**
   * While a class's trigger holds on every poll, it notifies exactly once if its
   * latch started clear, on the first poll, and never if it started set.
   */
  lemma {:induction false} ContinuousTriggerFiresOnce(k: Kind, trace: seq<Sample>, latch: bool)
    requires trace != []
    requires forall i :: 0 <= i < |trace| ==> TriggerStep(k, trace[i])
    ensures Run(k, trace, latch).0
    ensures |Run(k, trace, latch).1| == (if latch then 0 else 1)
    ensures !latch ==> Check(k, trace[0].bat, trace[0].plugged, latch).sent.Some?
  {
    forall i | 0 <= i < |trace| ensures !ResetStep(k, trace[i]) {
      TriggerExcludesReset(k, trace[i].bat.percent.value, trace[i].plugged);
    }
    AtMostOnceWithoutReset(k, trace, latch);
    var u := Check(k, trace[0].bat, trace[0].plugged, latch);
    assert u.latch;
    AtMostOnceWithoutReset(k, trace[1..], u.latch);
  }

  /** After a poll that meets the reset condition the latch is clear, so the next poll that meets the trigger notifies again. */
  lemma ResetRearms(k: Kind, s: Sample, t: Sample, latch: bool)
    requires ResetStep(k, s) && TriggerStep(k, t)
    ensures !Check(k, s.bat, s.plugged, latch).latch
    ensures Check(k, t.bat, t.plugged, Check(k, s.bat, s.plugged, latch).latch).sent.Some?
  {
  }

  /**
   * A battery at 20% or less, unplugged, notifies "low" once (critical, sticky);
   * the next poll with the same reading stays silent; plugging in, still low or
   * not, clears the latch silently.
   */
  lemma LowBatteryScenario(low: Reading, later: Reading)
    requires low.percent.Some? && low.percent.value <= 20 && later.percent.Some?
    ensures Run(Low, [Sample(low, false), Sample(low, false), Sample(later, true)], false)
      == (false, [Notification(Low, low.name, low.percent.value, Critical, "battery-caution", 0)])
  {
    var trace := [Sample(low, false), Sample(low, false), Sample(later, true)];
    var third := trace[1..][1..];
    assert third == [Sample(later, true)] && third[1..] == [];
    var u := Check(Low, later, true, true);
    assert u == Update(false, None) && Sent(u) == [];
    assert Run(Low, third, true).1 == Sent(u) + Run(Low, [], false).1;
    assert Run(Low, third, true) == (false, []);
    assert Run(Low, trace[1..], true) == (false, []);
    var first := Check(Low, low, false, false);
    assert Sent(first) == [Notification(Low, low.name, low.percent.value, Critical, "battery-caution", 0)];
    assert Run(Low, trace, false).1 == Sent(first) + [];
    assert Sent(first) + [] == Sent(first);
    assert Run(Low, trace, false).0 == false;
  }
}
