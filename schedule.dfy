/**
 * How long the monitor sleeps between polls: a base interval from the command
 * line, shortened to 20 or 40 seconds as the lowest known charge drops.
 */
module Schedule {
  import opened Wrappers
  import opened Sysfs

  const DefaultCheckInterval := 60

  /** `CHECK_INTERVAL = max(1, interval)`: the base interval is at least one second. */
  function CheckInterval(flag: int): (r: int)
    ensures r >= 1
    ensures flag >= 1 ==> r == flag
    ensures flag < 1 ==> r == 1
  {
    if flag > 1 then flag else 1
  }

  /**
   * `dynamic_interval`: the next sleep, in seconds, for the given lowest charge.
   * It is one of 20, 40 and the base interval, so never below one second.
   */
  function DynamicInterval(minPercent: int, checkInterval: int): (r: int)
    ensures r == 20 || r == 40 || r == checkInterval
    ensures checkInterval >= 1 ==> r >= 1
  {
    if minPercent <= 20 then 20
    else if minPercent <= 40 then 40
    else checkInterval
  }

  /**
   * With a base interval of at least 40 seconds, a lower charge never gives a
   * longer sleep; below 40 seconds a charge of 21..40% sleeps longer than a
   * higher one.
   */
  lemma DynamicIntervalMonotone(a: int, b: int, checkInterval: int)
    requires a <= b
    ensures checkInterval >= 40 ==> DynamicInterval(a, checkInterval) <= DynamicInterval(b, checkInterval)
    ensures checkInterval < 40 && 20 < a <= 40 < b ==> DynamicInterval(a, checkInterval) > DynamicInterval(b, checkInterval)
  {
  }

  /** The charges that are known, in battery order (the comprehension `percents` in the poll loop). */
  function KnownPercents(bats: seq<Reading>): (r: seq<int>)
    ensures |r| <= |bats|
    ensures forall p :: p in r <==> exists i :: 0 <= i < |bats| && bats[i].percent == Some(p)
  {
    if bats == [] then []
    else
      var rest := KnownPercents(bats[1..]);
      assert forall p :: (exists i :: 1 <= i < |bats| && bats[i].percent == Some(p)) ==> p in rest by {
        forall p, i | 1 <= i < |bats| && bats[i].percent == Some(p) ensures p in rest {
          assert bats[1..][i - 1] == bats[i];
        }
      }
      (if bats[0].percent.Some? then [bats[0].percent.value] else []) + rest
  }

  /** Python's `min` over a non-empty list: an element no larger than any other. */
  function Min(s: seq<int>): (r: int)
    requires |s| > 0
    ensures r in s
    ensures forall x :: x in s ==> r <= x
  {
    if |s| == 1 then s[0]
    else
      var m := Min(s[1..]);
      assert forall x :: x in s ==> x == s[0] || x in s[1..];
      if s[0] <= m then s[0] else m
  }

  /**
   * The interval the poll loop sleeps: `dynamic_interval` of the lowest known
   * charge, or of the base interval itself when no charge is known.
   */
  function NextInterval(bats: seq<Reading>, checkInterval: int): (r: int)
    ensures r == 20 || r == 40 || r == checkInterval
    ensures checkInterval >= 1 ==> r >= 1
  {
    var percents := KnownPercents(bats);
    DynamicInterval(if |percents| > 0 then Min(percents) else checkInterval, checkInterval)
  }

  /** A single battery known at 20% or less makes the next sleep 20 seconds, whatever the others read. */
  lemma NextIntervalLowBattery(bats: seq<Reading>, checkInterval: int, i: int)
    requires 0 <= i < |bats| && bats[i].percent.Some? && bats[i].percent.value <= 20
    ensures NextInterval(bats, checkInterval) == 20
  {
    assert bats[i].percent.value in KnownPercents(bats);
  }

  /** When the lowest known charge is above 20% but at most 40%, the next sleep is 40 seconds. */
  lemma NextIntervalMidBattery(bats: seq<Reading>, checkInterval: int, i: int)
    requires 0 <= i < |bats| && bats[i].percent.Some? && bats[i].percent.value <= 40
    requires forall j :: 0 <= j < |bats| && bats[j].percent.Some? ==> bats[j].percent.value > 20
    ensures NextInterval(bats, checkInterval) == 40
  {
    var ps := KnownPercents(bats);
    assert bats[i].percent.value in ps;
    var m := Min(ps);
    assert exists j :: 0 <= j < |bats| && bats[j].percent == Some(m);
  }

  /** When some charge is known and every known charge is above 40%, the next sleep is the base interval. */
  lemma NextIntervalHighBatteries(bats: seq<Reading>, checkInterval: int, i: int)
    requires 0 <= i < |bats| && bats[i].percent.Some?
    requires forall j :: 0 <= j < |bats| && bats[j].percent.Some? ==> bats[j].percent.value > 40
    ensures NextInterval(bats, checkInterval) == checkInterval
  {
    var ps := KnownPercents(bats);
    assert bats[i].percent.value in ps;
    var m := Min(ps);
    assert exists j :: 0 <= j < |bats| && bats[j].percent == Some(m);
  }

  /**
   * With no charge known the base interval is passed as if it were a charge: the
   * sleep is never shorter than the base interval, and equals it only when the
   * base interval is above 40 seconds or exactly 20 or 40.
   */
  lemma NextIntervalUnknownCharge(bats: seq<Reading>, checkInterval: int)
    requires forall j :: 0 <= j < |bats| ==> bats[j].percent == None
    ensures NextInterval(bats, checkInterval) >= checkInterval
    ensures NextInterval(bats, checkInterval) == checkInterval
      <==> checkInterval > 40 || checkInterval == 20 || checkInterval == 40
    ensures checkInterval <= 20 ==> NextInterval(bats, checkInterval) == 20
    ensures 20 < checkInterval <= 40 ==> NextInterval(bats, checkInterval) == 40
  {
    var ps := KnownPercents(bats);
    if |ps| > 0 {
      assert ps[0] in ps;
    }
  }

  /** The next sleep is at least one second for every base interval the command line can produce. */
  lemma NextIntervalPositive(bats: seq<Reading>, flag: int)
    ensures NextInterval(bats, CheckInterval(flag)) >= 1
  {
  }

  /** 15% gives 20 seconds, 35% gives 40 seconds, 70% with the default base gives 60 seconds. */
  lemma DynamicIntervalExamples()
    ensures DynamicInterval(15, DefaultCheckInterval) == 20
    ensures DynamicInterval(35, DefaultCheckInterval) == 40
    ensures DynamicInterval(70, DefaultCheckInterval) == 60
  {
  }
}
