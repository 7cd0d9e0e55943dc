/**
 * Reading the power-supply tree (`/sys/class/power_supply`): classifying device
 * names, reading one battery's capacity and status, and deciding whether the
 * machine is on external power.
 *
 * The file system is a snapshot handed in as a value: `fs[(device, file)]` is
 * the raw text of `<device>/<file>`, and a missing key is a file that could not
 * be read (Python's `safe_read` catching the exception and returning `None`).
 */
module Sysfs {
  import opened Wrappers
  import opened Text

  type Snapshot = map<(string, string), string>

  /** `safe_read`: the stripped text of `<device>/<file>`, or `None` when it cannot be read. */
  function SafeRead(fs: Snapshot, device: string, file: string): (r: Option<string>)
    ensures r.None? <==> (device, file) !in fs
    ensures r.Some? ==> r.value == [] || (!IsSpace(r.value[0]) && !IsSpace(r.value[|r.value| - 1]))
  {
    if (device, file) in fs then Some(Strip(fs[(device, file)])) else None
  }

  // ---------------------------------------------------------------- devices

  /** A directory entry counts as a battery when its lower-cased name starts with "bat". */
  predicate IsBatteryName(name: string) {
    StartsWith(Lower(name), "bat")
  }

  /** A directory entry counts as an AC adapter when its lower-cased name starts with one of four prefixes. */
  predicate IsAdapterName(name: string) {
    var l := Lower(name);
    StartsWith(l, "ac") || StartsWith(l, "acadapter") || StartsWith(l, "ac0") || StartsWith(l, "adapter")
  }

  /** Two of the four adapter prefixes are subsumed by "ac"; no name is classified as both kinds. */
  lemma AdapterPrefixes(name: string)
    ensures IsAdapterName(name) <==> StartsWith(Lower(name), "ac") || StartsWith(Lower(name), "adapter")
    ensures !(IsBatteryName(name) && IsAdapterName(name))
  {
    var l := Lower(name);
    if StartsWith(l, "acadapter") {
      assert l[..2] == l[..9][..2];
    } else if StartsWith(l, "ac0") {
      assert l[..2] == l[..3][..2];
    }
    if IsBatteryName(name) {
      assert l[0] == 'b';
    }
  }

  // --------------------------------------------------------------- readings

  /** One battery's state for one poll: its name, its charge if known, its lower-cased status. */
  datatype Reading = Reading(name: string, percent: Option<int>, status: string)

  /** `int(cap) if cap else None`, with the `ValueError` branch giving `None`. */
  function ParseCapacity(cap: Option<string>): Option<int> {
    match cap
    case None => None
    case Some(s) => if s == "" then None else ParseInt(s)
  }

  /** The reading `read_all_batteries` builds for the battery named `name`. */
  function ToReading(name: string, fs: Snapshot): (r: Reading)
    ensures r.name == name
    ensures r.percent.Some? ==> (name, "capacity") in fs
    ensures forall i :: 0 <= i < |r.status| ==> !('A' <= r.status[i] <= 'Z')
  {
    LowerHasNoCapital(SafeRead(fs, name, "status").GetOr(""));
    Reading(name, ParseCapacity(SafeRead(fs, name, "capacity")), Lower(SafeRead(fs, name, "status").GetOr("")))
  }

  /** The readings of all startup batteries, one per battery and in their order. */
  function ReadAll(batteries: seq<string>, fs: Snapshot): seq<Reading> {
    seq(|batteries|, i requires 0 <= i < |batteries| => ToReading(batteries[i], fs))
  }

  /** `read_all_batteries`: one reading per startup battery, appended in order. */
  method ReadAllBatteries(batteries: seq<string>, fs: Snapshot) returns (results: seq<Reading>)
    ensures results == ReadAll(batteries, fs)
  {
    results := [];
    for k := 0 to |batteries|
      invariant |results| == k
      invariant forall j :: 0 <= j < k ==> results[j] == ToReading(batteries[j], fs)
    {
      var bat := batteries[k];
      var cap := SafeRead(fs, bat, "capacity");
      var status := SafeRead(fs, bat, "status");
      var percent: Option<int>;
      if cap.None? || cap.value == "" {
        percent := None;
      } else {
        percent := ParseInt(cap.value);
      }
      results := results + [Reading(bat, percent, Lower(status.GetOr("")))];
    }
  }

  /** The readings carry the startup names, in order. */
  lemma ReadAllNames(batteries: seq<string>, fs: Snapshot)
    ensures |ReadAll(batteries, fs)| == |batteries|
    ensures forall i :: 0 <= i < |batteries| ==> ReadAll(batteries, fs)[i].name == batteries[i]
    ensures (set b | b in ReadAll(batteries, fs) :: b.name) == (set n | n in batteries)
  {
    var bats := ReadAll(batteries, fs);
    forall n | n in batteries ensures n in (set b | b in bats :: b.name) {
      var i :| 0 <= i < |batteries| && batteries[i] == n;
      assert bats[i].name == n;
    }
  }

  /**
   * The charge is unknown when the capacity file is missing, empty once
   * stripped, or holds a character no integer text has; a file whose stripped
   * text is the decimal text of n, the kernel's "57\n" for instance, gives n,
   * not clamped to 0..100 (a capacity file holding "150" or "-3" gives 150 or -3).
   */
  lemma ReadingPercent(name: string, fs: Snapshot, n: int)
    ensures (name, "capacity") !in fs ==> ToReading(name, fs).percent == None
    ensures (name, "capacity") in fs && Strip(fs[(name, "capacity")]) == "" ==> ToReading(name, fs).percent == None
    ensures (name, "capacity") in fs && Strip(fs[(name, "capacity")]) == FormatInt(n) ==> ToReading(name, fs).percent == Some(n)
    ensures (name, "capacity") in fs ==>
      var t := Strip(fs[(name, "capacity")]);
      (exists i :: 0 <= i < |t| && !IsDigit(t[i]) && t[i] != '_' && !(i == 0 && (t[i] == '+' || t[i] == '-')))
        ==> ToReading(name, fs).percent == None
  {
    if (name, "capacity") in fs && Strip(fs[(name, "capacity")]) == FormatInt(n) {
      ParseFormatRoundTrip(n);
    }
  }

  /** The kernel writes the capacity followed by a newline: a file holding the text of n and "\n" gives n. */
  lemma KernelCapacityText(name: string, fs: Snapshot, n: int)
    requires (name, "capacity") in fs && fs[(name, "capacity")] == FormatInt(n) + "\n"
    ensures ToReading(name, fs).percent == Some(n)
  {
    var s := FormatInt(n);
    assert s[0] == '-' || IsDigit(s[0]);
    assert IsDigit(s[|s| - 1]);
    StripNewline(s);
    ReadingPercent(name, fs, n);
  }

  /**
   * A missing status file gives the empty status; a present one is stripped and
   * lower-cased, so no ASCII capital survives in it.
   */
  lemma ReadingStatus(name: string, fs: Snapshot)
    ensures (name, "status") !in fs ==> ToReading(name, fs).status == ""
    ensures (name, "status") in fs ==> ToReading(name, fs).status == Lower(Strip(fs[(name, "status")]))
  {
  }

  /** The kernel's "Charging" followed by a newline reads as "charging", which counts as plugged. */
  lemma ChargingStatusWord()
    ensures Lower(Strip("Charging\n")) == "charging"
  {
    var w := "Charging";
    assert !IsSpace(w[0]) && !IsSpace(w[|w| - 1]);
    StripNewline(w);
    assert w + "\n" == "Charging\n";
    LowerAt(w, 0);
    LowerIdempotent("harging");
    assert w[1..] == "harging";
  }

  /** The kernel's "Full" followed by a newline reads as "full", which counts as plugged. */
  lemma FullStatusWord()
    ensures Lower(Strip("Full\n")) == "full"
  {
    assert TrimStart("Full\n") == "Full\n";
    assert TrimEnd("Full\n") == TrimEnd("Full") == "Full";
    LowerAt("Full", 0);
    assert "Full"[1..] == "ull";
  }

  // ------------------------------------------------------------- plug state

  /** The machine is on external power when a battery charges or is full, or an adapter's `online` reads "1". */
  predicate PluggedAny(bats: seq<Reading>, adapters: seq<string>, fs: Snapshot)
    ensures
      && (forall i :: 0 <= i < |bats| ==> bats[i].status == "")
      && (forall j :: 0 <= j < |adapters| ==> (adapters[j], "online") !in fs)
      ==> !PluggedAny(bats, adapters, fs)
  {
    || (exists i :: 0 <= i < |bats| && bats[i].status in {"charging", "full"})
    || (exists j :: 0 <= j < |adapters| && SafeRead(fs, adapters[j], "online") == Some("1"))
  }

  /** `is_plugged_any`: the battery statuses first, then the adapters, returning at the first hit. */
  method IsPluggedAny(bats: seq<Reading>, adapters: seq<string>, fs: Snapshot) returns (plugged: bool)
    ensures plugged == PluggedAny(bats, adapters, fs)
  {
    for i := 0 to |bats|
      invariant forall k :: 0 <= k < i ==> bats[k].status !in {"charging", "full"}
    {
      if bats[i].status in {"charging", "full"} {
        return true;
      }
    }
    for j := 0 to |adapters|
      invariant forall k :: 0 <= k < j ==> SafeRead(fs, adapters[k], "online") != Some("1")
    {
      if SafeRead(fs, adapters[j], "online") == Some("1") {
        return true;
      }
    }
    return false;
  }
}
