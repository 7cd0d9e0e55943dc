/**
 * The polling loop's state and one iteration of it: the map from battery name
 * to its four latch bits, reset when the set of battery names changes, and
 * updated in place battery by battery.
 */
module Monitor {
  import opened Wrappers
  import opened Sysfs
  import opened Rules
  import opened Schedule

  /** One battery's four latch bits, one per notification class. */
  datatype Latches = Latches(low: bool, high: bool, unplug: bool, full: bool)

  const Clear := Latches(false, false, false, false)

  function NameSet(names: seq<string>): set<string> {
    set n | n in names
  }

  function ReadingNames(bats: seq<Reading>): set<string> {
    set b | b in bats :: b.name
  }

  /** `init_notified`: every startup battery with all four latches clear. */
  function InitNotified(batteries: seq<string>): (r: map<string, Latches>)
    ensures r.Keys == NameSet(batteries)
    ensures forall n :: n in r ==> r[n] == Clear
  {
    map n | n in batteries :: Clear
  }

  /**
   * The reset in the poll loop: when the tracked names differ from the names
   * just read, the whole map is replaced by all-clear latches keyed by exactly
   * the startup batteries; a matching map is kept.
   */
  function Reconcile(notified: map<string, Latches>, batteries: seq<string>, bats: seq<Reading>): (r: map<string, Latches>)
    ensures notified.Keys != ReadingNames(bats) ==> r.Keys == NameSet(batteries) && forall n :: n in r ==> r[n] == Clear
    ensures notified.Keys == ReadingNames(bats) ==> r == notified
  {
    if notified.Keys != ReadingNames(bats) then InitNotified(batteries) else notified
  }

  /**
   * The four checks of one battery, each fed its own old bit; notifications in
   * the order low, high, unplug, full. At most four are sent, each about this
   * battery and its known charge; with the charge unknown nothing changes.
   */
  function UpdateBattery(l: Latches, b: Reading, plugged: bool): (r: (Latches, seq<Notification>))
    ensures |r.1| <= 4
    ensures forall i :: 0 <= i < |r.1| ==> r.1[i].battery == b.name && b.percent == Some(r.1[i].percent)
    ensures b.percent == None ==> r == (l, [])
  {
    var low := CheckLow(b, plugged, l.low);
    var high := CheckHigh(b, plugged, l.high);
    var unplug := CheckUnplug(b, plugged, l.unplug);
    var full := CheckFull(b, plugged, l.full);
    (Latches(low.latch, high.latch, unplug.latch, full.latch), Sent(low) + Sent(high) + Sent(unplug) + Sent(full))
  }

  /** The batteries updated one after another, in reading order; the map keeps its keys. */
  function UpdateAll(notified: map<string, Latches>, bats: seq<Reading>, plugged: bool): (r: (map<string, Latches>, seq<Notification>))
    requires forall i :: 0 <= i < |bats| ==> bats[i].name in notified
    ensures r.0.Keys == notified.Keys
    ensures |r.1| <= 4 * |bats|
    decreases |bats|
  {
    if bats == [] then (notified, [])
    else
      var prev := UpdateAll(notified, bats[..|bats| - 1], plugged);
      var b := bats[|bats| - 1];
      var step := UpdateBattery(prev.0[b.name], b, plugged);
      (prev.0[b.name := step.0], prev.1 + step.1)
  }

  /**
   * One poll as a function of the old map and the file-system snapshot: the new
   * map and the notifications sent, at most four per startup battery.
   */
  function PollStep(notified: map<string, Latches>, batteries: seq<string>, adapters: seq<string>, fs: Snapshot)
    : (r: (map<string, Latches>, seq<Notification>))
    ensures |r.1| <= 4 * |batteries|
  {
    var bats := ReadAll(batteries, fs);
    var plugged := PluggedAny(bats, adapters, fs);
    ReadAllNames(batteries, fs);
    UpdateAll(Reconcile(notified, batteries, bats), bats, plugged)
  }

  // ------------------------------------------------------------ reconcile

  /**
   * The reset never happens: the map is keyed by the startup batteries and the
   * readings are one per startup battery, so the two name sets always agree.
   */
  lemma ReconcileNeverResets(notified: map<string, Latches>, batteries: seq<string>, fs: Snapshot)
    requires notified.Keys == NameSet(batteries)
    ensures Reconcile(notified, batteries, ReadAll(batteries, fs)) == notified
  {
    ReadAllNames(batteries, fs);
  }

  // ---------------------------------------------------- per-battery update

  /** Each class's new bit depends only on that class's old bit: the four classes are updated independently. */
  lemma UpdateBatteryIndependent(l1: Latches, l2: Latches, b: Reading, plugged: bool)
    ensures l1.low == l2.low ==> UpdateBattery(l1, b, plugged).0.low == UpdateBattery(l2, b, plugged).0.low
    ensures l1.high == l2.high ==> UpdateBattery(l1, b, plugged).0.high == UpdateBattery(l2, b, plugged).0.high
    ensures l1.unplug == l2.unplug ==> UpdateBattery(l1, b, plugged).0.unplug == UpdateBattery(l2, b, plugged).0.unplug
    ensures l1.full == l2.full ==> UpdateBattery(l1, b, plugged).0.full == UpdateBattery(l2, b, plugged).0.full
  {
  }

  /** Updating a battery a second time with the same reading changes nothing and sends nothing. */
  lemma UpdateBatteryIdempotent(l: Latches, b: Reading, plugged: bool)
    ensures var r := UpdateBattery(l, b, plugged);
      UpdateBattery(r.0, b, plugged) == (r.0, [])
  {
    CheckIdempotent(Low, b, plugged, l.low);
    CheckIdempotent(High, b, plugged, l.high);
    CheckIdempotent(Unplug, b, plugged, l.unplug);
    CheckIdempotent(Full, b, plugged, l.full);
  }

  /** Entries of batteries that were not read are left as they were. */
  lemma {:induction false} UpdateAllFrame(notified: map<string, Latches>, bats: seq<Reading>, plugged: bool, k: string)
    requires forall i :: 0 <= i < |bats| ==> bats[i].name in notified
    requires k in notified && k !in ReadingNames(bats)
    ensures UpdateAll(notified, bats, plugged).0[k] == notified[k]
    decreases |bats|
  {
    if bats != [] {
      var init := bats[..|bats| - 1];
      assert ReadingNames(init) <= ReadingNames(bats);
      assert bats[|bats| - 1] in bats;
      UpdateAllFrame(notified, init, plugged, k);
    }
  }

  /** When names are distinct, the entry of a battery that was read is its one four-check update. */
  lemma {:induction false} UpdateAllEntry(notified: map<string, Latches>, bats: seq<Reading>, plugged: bool, i: int)
    requires forall j :: 0 <= j < |bats| ==> bats[j].name in notified
    requires forall j, k :: 0 <= j < k < |bats| ==> bats[j].name != bats[k].name
    requires 0 <= i < |bats|
    ensures UpdateAll(notified, bats, plugged).0[bats[i].name] == UpdateBattery(notified[bats[i].name], bats[i], plugged).0
    decreases |bats|
  {
    var init := bats[..|bats| - 1];
    if i < |bats| - 1 {
      assert init[i] == bats[i];
      UpdateAllEntry(notified, init, plugged, i);
    } else {
      assert bats[i].name !in ReadingNames(init);
      UpdateAllFrame(notified, init, plugged, bats[i].name);
    }
  }

  // ------------------------------------------------------- polling twice

  /** Polling a battery with entry `l` and reading `b` again changes nothing and sends nothing. */
  ghost predicate Fixed(l: Latches, b: Reading, plugged: bool) {
    UpdateBattery(l, b, plugged) == (l, [])
  }

  /** Every battery in `bats` is at a fixed point of its update. */
  ghost predicate Settled(notified: map<string, Latches>, bats: seq<Reading>, plugged: bool) {
    forall i :: 0 <= i < |bats| ==> bats[i].name in notified && Fixed(notified[bats[i].name], bats[i], plugged)
  }

  /** Readings with the same name are the same reading (true of readings taken from one snapshot). */
  ghost predicate Consistent(bats: seq<Reading>) {
    forall i, j :: 0 <= i < |bats| && 0 <= j < |bats| && bats[i].name == bats[j].name ==> bats[i] == bats[j]
  }

  lemma {:induction false} SettledIsFixpoint(notified: map<string, Latches>, bats: seq<Reading>, plugged: bool)
    requires Settled(notified, bats, plugged)
    ensures UpdateAll(notified, bats, plugged) == (notified, [])
    decreases |bats|
  {
    if bats != [] {
      var init := bats[..|bats| - 1];
      SettledIsFixpoint(notified, init, plugged);
      var b := bats[|bats| - 1];
      assert Fixed(notified[b.name], b, plugged);
      assert notified[b.name := notified[b.name]] == notified;
    }
  }

  /** Updating one more battery keeps the earlier ones settled and settles the new one. */
  lemma SettleStep(prev: map<string, Latches>, init: seq<Reading>, b: Reading, plugged: bool)
    requires b.name in prev && Settled(prev, init, plugged) && Consistent(init + [b])
    ensures Settled(prev[b.name := UpdateBattery(prev[b.name], b, plugged).0], init + [b], plugged)
  {
    var now := prev[b.name := UpdateBattery(prev[b.name], b, plugged).0];
    var bats := init + [b];
    UpdateBatteryIdempotent(prev[b.name], b, plugged);
    assert Fixed(now[b.name], b, plugged);
    forall i | 0 <= i < |bats| ensures bats[i].name in now && Fixed(now[bats[i].name], bats[i], plugged) {
      if bats[i].name == b.name {
        assert bats[i] == bats[|bats| - 1];
      } else {
        assert bats[i] == init[i];
      }
    }
  }

  lemma {:induction false} UpdateAllSettles(notified: map<string, Latches>, bats: seq<Reading>, plugged: bool)
    requires forall i :: 0 <= i < |bats| ==> bats[i].name in notified
    requires Consistent(bats)
    ensures Settled(UpdateAll(notified, bats, plugged).0, bats, plugged)
    decreases |bats|
  {
    if bats != [] {
      var init := bats[..|bats| - 1];
      UpdateAllSettles(notified, init, plugged);
      assert bats == init + [bats[|bats| - 1]];
      SettleStep(UpdateAll(notified, init, plugged).0, init, bats[|bats| - 1], plugged);
    }
  }

  /**
   * At most one notification per trigger interval, for the whole poll: a second
   * poll of an unchanged file-system snapshot sends nothing and leaves every
   * latch as the first poll set it.
   */
  lemma PollTwiceQuiet(notified: map<string, Latches>, batteries: seq<string>, adapters: seq<string>, fs: Snapshot)
    ensures var first := PollStep(notified, batteries, adapters, fs);
      PollStep(first.0, batteries, adapters, fs) == (first.0, [])
  {
    var bats := ReadAll(batteries, fs);
    var plugged := PluggedAny(bats, adapters, fs);
    ReadAllNames(batteries, fs);
    var current := Reconcile(notified, batteries, bats);
    assert current.Keys == ReadingNames(bats);
    var first := PollStep(notified, batteries, adapters, fs);
    assert Reconcile(first.0, batteries, bats) == first.0;
    UpdateAllSettles(current, bats, plugged);
    SettledIsFixpoint(first.0, bats, plugged);
  }

  /** One poll keeps the map keyed by exactly the startup batteries. */
  lemma PollKeepsKeys(notified: map<string, Latches>, batteries: seq<string>, adapters: seq<string>, fs: Snapshot)
    ensures PollStep(notified, batteries, adapters, fs).0.Keys == NameSet(batteries)
  {
    ReadAllNames(batteries, fs);
  }

  // ------------------------------------------------------------- the loop

  /** The state `main` keeps across polls, with the startup device lists and the base interval. */
  class Monitor {
    const batteries: seq<string>
    const adapters: seq<string>
    const checkInterval: int
    var notified: map<string, Latches>

    ghost predicate Valid()
      reads this
    {
      notified.Keys == NameSet(batteries) && checkInterval >= 1
    }

    /** The start of `main`: the latch map from `init_notified`, the base interval from the `--interval` flag. */
    constructor (batteries: seq<string>, adapters: seq<string>, intervalFlag: int)
      ensures Valid()
      ensures this.batteries == batteries && this.adapters == adapters
      ensures checkInterval == CheckInterval(intervalFlag)
      ensures notified == InitNotified(batteries)
    {
      this.batteries := batteries;
      this.adapters := adapters;
      checkInterval := CheckInterval(intervalFlag);
      notified := InitNotified(batteries);
    }

    /**
     * The four checks of one battery. The battery's entry (an inner dictionary
     * in the source) has each bit overwritten in turn and is stored back.
     */
    method CheckBattery(b: Reading, plugged: bool) returns (sent: seq<Notification>)
      requires b.name in notified
      modifies this
      ensures notified == old(notified)[b.name := UpdateBattery(old(notified)[b.name], b, plugged).0]
      ensures sent == UpdateBattery(old(notified)[b.name], b, plugged).1
    {
      var entry := notified[b.name];
      var low := CheckLow(b, plugged, entry.low);
      entry := entry.(low := low.latch);
      var high := CheckHigh(b, plugged, entry.high);
      entry := entry.(high := high.latch);
      var unplug := CheckUnplug(b, plugged, entry.unplug);
      entry := entry.(unplug := unplug.latch);
      var full := CheckFull(b, plugged, entry.full);
      entry := entry.(full := full.latch);
      notified := notified[b.name := entry];
      sent := Sent(low) + Sent(high) + Sent(unplug) + Sent(full);
    }

    /** The `for b in bats` loop of one poll: every battery's four checks, in reading order. */
    method CheckAll(bats: seq<Reading>, plugged: bool) returns (events: seq<Notification>)
      requires forall i :: 0 <= i < |bats| ==> bats[i].name in notified
      modifies this
      ensures (notified, events) == UpdateAll(old(notified), bats, plugged)
    {
      events := [];
      for i := 0 to |bats|
        invariant notified.Keys == old(notified).Keys
        invariant (notified, events) == UpdateAll(old(notified), bats[..i], plugged)
      {
        var sent := CheckBattery(bats[i], plugged);
        events := events + sent;
        assert bats[..i + 1][..i] == bats[..i];
      }
      assert bats[..|bats|] == bats;
    }

    /**
     * One iteration of the loop in `main`: read, decide the plug state, reset
     * the map if the names changed, run the four checks of every battery in
     * place, and compute the sleep before the next poll.
     */
    method Poll(fs: Snapshot) returns (events: seq<Notification>, interval: int)
      requires Valid()
      modifies this
      ensures Valid()
      ensures (notified, events) == PollStep(old(notified), batteries, adapters, fs)
      ensures notified.Keys == old(notified).Keys
      ensures interval == NextInterval(ReadAll(batteries, fs), checkInterval) && interval >= 1
    {
      var bats := ReadAllBatteries(batteries, fs);
      var plugged := IsPluggedAny(bats, adapters, fs);
      if notified.Keys != ReadingNames(bats) {
        notified := InitNotified(batteries);
      }
      ReadAllNames(batteries, fs);
      assert notified == Reconcile(old(notified), batteries, bats);
      events := CheckAll(bats, plugged);
      interval := NextInterval(bats, checkInterval);
    }
  }
}
