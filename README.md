# Battery monitor: notification latches and the poll step

A Dafny model of the core of `battery_monitoring.py`, a Linux battery monitor
that polls `/sys/class/power_supply` and raises desktop notifications when a
battery's charge crosses a threshold. Each battery has four latch bits, one per
notification class:

- **low**: at most 20%, unplugged.
- **high**: at least 85%, plugged.
- **unplug**: at least 95%, plugged.
- **full**: at least 100%, plugged.

A class notifies once when its latch is clear and its trigger holds. The latch
stays set until that class's own reset condition is seen.

The project has six modules, one per part of the program:

| file | module | what it models |
|---|---|---|
| `wrappers.dfy` | `Wrappers` | `Option`, for Python's `None` |
| `text.dfy` | `Text` | the string built-ins the monitor relies on: `str.strip()`, `str.lower()`, `str.startswith`, `int(str)` and `str(int)` |
| `sysfs.dfy` | `Sysfs` | `safe_read` as a lookup in a snapshot of the power-supply tree; the device-name prefix tests; `read_all_batteries` (a method with a loop, proved against `ReadAll`); `is_plugged_any` (a method with two early-return loops, proved against `PluggedAny`) |
| `rules.dfy` | `Rules` | the four checks `check_low`, `check_high`, `check_unplug`, `check_full`. Each returns the new latch bit and the notification it sends, if any. Each is proved equal to `Evaluate`, one latch machine written once for all classes from their trigger and reset conditions. The file also has lemmas about single polls and about runs of many polls. |
| `schedule.dfy` | `Schedule` | `CHECK_INTERVAL`, `dynamic_interval`, and how the loop picks its argument (the lowest known charge, or `CHECK_INTERVAL` itself) |
| `monitor.dfy` | `Monitor` | the latch map (battery name to `Latches`); `init_notified`; the reset when battery names change; the in-place update of every battery's four bits; `PollStep`, one iteration of `main` as a function; class `Monitor`, whose `Poll` method is that iteration done in place |

Where a reader might expect other behaviour, the model follows the code:

- **Reset map keys.** When the tracked names differ from the names just read,
  the code rebuilds the map from the startup battery list, not from the names
  just read. The docstring of `battery_monitoring.py` (line 6) promises
  re-initialisation when the batteries change. But readings are always taken
  for exactly that startup list, so the two name sets always agree and the
  reset never happens (`ReconcileNeverResets`).
  A battery that is removed at run time just reads as unknown. One that is added
  is never seen.
- **Interval with no known charge.** The loop then passes the base interval
  itself to `dynamic_interval` in place of a charge. So the sleep is 20 s for a
  base interval of 20 s or less, and 40 s for one of 21 to 40 s. It is the base
  interval only above 40 s, or at exactly 20 s or 40 s
  (`NextIntervalUnknownCharge`).
- **Unplugging clears `full`.** The code's reset for `full` is
  "unplugged, or below 100%". So unplugging clears it whatever the known
  charge (`FullRule`). With the charge unreadable, every latch is kept,
  `full` included (`UnknownChargeKeepsLatch`).
- **Status and charge text are kept as read.** The status is the lower-cased
  text of the status file, or `""` when it is missing, not a fixed set of
  values. The charge is any integer the capacity file holds, not clamped to
  0..100 (`ReadingPercent`).

## Model

| member | source | states |
|---|---|---|
| `Text.Strip` | battery_monitoring.py:137 | `strip()` gives a text that neither starts nor ends with whitespace and is no longer than the input; it is empty exactly when the input is all whitespace |
| `Text.StripSlice` | battery_monitoring.py:137 | `strip()` gives a middle slice of the input and removes only whitespace before and after it |
| `Text.TrimStartShape` | battery_monitoring.py:137 | stripping the front removes a prefix made only of whitespace and stops at the first other character |
| `Text.TrimEndShape` | battery_monitoring.py:137 | stripping the end removes a suffix made only of whitespace and stops at the last other character |
| `Text.StripUnpadded` | battery_monitoring.py:137 | `strip()` leaves a text that neither starts nor ends with whitespace unchanged |
| `Text.StripIdempotent` | battery_monitoring.py:137 | stripping twice gives the same text as stripping once |
| `Text.StripNewline` | battery_monitoring.py:137 | a text without whitespace at either end, followed by a newline as the kernel writes it, strips back to that text |
| `Text.Lower` | battery_monitoring.py:155 | lower-casing keeps the length of the status text |
| `Text.LowerAt` | battery_monitoring.py:155 | lower-casing works character by character: the i-th result character is the lower-cased i-th input character |
| `Text.LowerHasNoCapital` | battery_monitoring.py:155 | no ASCII capital letter is left in a lower-cased status |
| `Text.LowerIdempotent` | battery_monitoring.py:155 | lower-casing twice gives the same text as lower-casing once |
| `Text.ParseInt` | battery_monitoring.py:147-151 | `int()` succeeds only on a non-empty text of digits and underscores with at most a leading sign, so any other character gives `None` (the `ValueError` branch); a leading "-" gives a value of at most 0, otherwise at least 0 |
| `Text.ParseFormatRoundTrip` | battery_monitoring.py:148 | the model's `int(str(n)) == n` for every integer, negative ones included |
| `Text.ParseIntRejectsEmptyAndSignOnly` | battery_monitoring.py:147-151 | `int()` rejects the empty text and a lone sign, so they give an unknown charge |
| `Sysfs.SafeRead` | battery_monitoring.py:135-140 | `safe_read` gives `None` exactly when the file cannot be read, and otherwise a text without whitespace at either end |
| `Sysfs.AdapterPrefixes` | battery_monitoring.py:122-123 | the adapter prefixes "acadapter" and "ac0" add nothing to "ac"; no device name counts as both a battery and an adapter |
| `Sysfs.ToReading` | battery_monitoring.py:143-156 | a battery's reading carries its own name, has a charge only when its capacity file could be read, and has no ASCII capital in its status |
| `Sysfs.ReadAllBatteries` | battery_monitoring.py:142-157 | the loop builds exactly one reading per startup battery, in order, each the reading `ToReading` gives for that battery |
| `Sysfs.ReadAllNames` | battery_monitoring.py:144-153 | the readings carry the startup battery names in order, so their set of names is the set of startup names |
| `Sysfs.ReadingPercent` | battery_monitoring.py:145-151 | the charge is unknown when the capacity file is missing, empty after stripping, or holds a character no integer text has; a file whose stripped text is the text of any integer n gives n, with no clamping to 0..100 |
| `Sysfs.KernelCapacityText` | battery_monitoring.py:145-151 | a capacity file holding the text of n followed by the kernel's newline gives the charge n |
| `Sysfs.ReadingStatus` | battery_monitoring.py:146-155 | a missing status file gives ""; a present one is stripped and lower-cased |
| `Sysfs.ChargingStatusWord` | battery_monitoring.py:155-161 | the kernel's "Charging" with its newline reads as "charging", a plugged status |
| `Sysfs.FullStatusWord` | battery_monitoring.py:155-161 | the kernel's "Full" with its newline reads as "full", a plugged status |
| `Sysfs.PluggedAny` | battery_monitoring.py:159-166 | when no battery status and no adapter's `online` file can be read, the machine counts as on battery |
| `Sysfs.IsPluggedAny` | battery_monitoring.py:159-166 | returns true if and only if some reading's status is "charging" or "full", or some adapter's `online` file reads "1" |
| `Rules.Notify` | battery_monitoring.py:199-230 | a notification reports its own class, battery and charge; it stays on screen (timeout 0) exactly when it is critical, which is exactly for the low and full classes |
| `Rules.CheckLow` | battery_monitoring.py:194-202 | `check_low` equals the latch machine for trigger "at most 20%, unplugged" and reset "plugged" |
| `Rules.CheckHigh` | battery_monitoring.py:204-212 | `check_high` equals the latch machine for trigger "plugged, at least 85%" and reset "unplugged" |
| `Rules.CheckUnplug` | battery_monitoring.py:214-222 | `check_unplug` equals the latch machine for trigger "plugged, at least 95%" and reset "unplugged or below 95%" |
| `Rules.CheckFull` | battery_monitoring.py:224-232 | `check_full` equals the latch machine for trigger "plugged, at least 100%" and reset "unplugged or below 100%" |
| `Rules.UnknownChargeKeepsLatch` | battery_monitoring.py:194-232 | with the charge unknown, every check keeps its latch and sends nothing |
| `Rules.FiresIff` | battery_monitoring.py:194-232 | a check notifies if and only if the charge is known, the latch was clear and the trigger holds; it then sets the latch and reports its own class, battery and charge |
| `Rules.LowRule` | battery_monitoring.py:198-202 | `check_low` notifies if and only if the charge is at most 20%, unplugged, latch clear; plugged, it returns false; unplugged without notifying, it keeps the latch, so charge rising above 20% without a charger does not re-arm it |
| `Rules.HighRule` | battery_monitoring.py:208-212 | `check_high` notifies if and only if plugged, at least 85%, latch clear; a set latch stays set exactly while plugged, even below 85% |
| `Rules.UnplugRule` | battery_monitoring.py:218-222 | `check_unplug` notifies if and only if plugged, at least 95%, latch clear; a set latch stays set exactly while plugged and at least 95% |
| `Rules.FullRule` | battery_monitoring.py:228-232 | `check_full` notifies if and only if plugged, at least 100%, latch clear; a set latch stays set exactly while plugged and at least 100% |
| `Rules.FullChargeFiresThree` | battery_monitoring.py:204-232 | at 100%, plugged, with clear latches, high, unplug and full all notify in the same poll, and low does not |
| `Rules.CheckIdempotent` | battery_monitoring.py:194-232 | running a check again on the same reading, with the latch it returned, changes nothing and sends nothing |
| `Rules.TriggerExcludesReset` | battery_monitoring.py:194-232 | no reading meets both the trigger and the reset condition of a class |
| `Rules.AtMostOnceWithoutReset` | battery_monitoring.py:194-232 | over any run of polls in which no poll meets the class's reset condition, the class notifies at most once, never if it started latched, and ends latched exactly when it started latched or notified |
| `Rules.ContinuousTriggerFiresOnce` | battery_monitoring.py:194-232 | while the trigger holds on every poll, the class notifies exactly once if its latch started clear, on the first poll, never if it started set, and ends latched |
| `Rules.ResetRearms` | battery_monitoring.py:194-232 | after a poll that meets the reset condition the latch is clear, so the next poll that meets the trigger notifies again |
| `Rules.LowBatteryScenario` | battery_monitoring.py:194-202 | a battery at 20% or less, unplugged, notifies "low" (critical, sticky) once; a repeat poll is silent; plugging in clears the latch silently, even if still low |
| `Schedule.CheckInterval` | battery_monitoring.py:61 | the base interval is at least one second: the `--interval` value when positive, otherwise 1 |
| `Schedule.DynamicInterval` | battery_monitoring.py:274-279 | `dynamic_interval` returns 20, 40 or the base interval, so never less than one second when the base is at least one |
| `Schedule.DynamicIntervalMonotone` | battery_monitoring.py:274-279 | with a base of at least 40 s a lower charge never sleeps longer; with a base below 40 s a charge of 21..40% sleeps longer than a charge above 40% |
| `Schedule.KnownPercents` | battery_monitoring.py:316 | an integer is among the known charges if and only if some reading has it as its charge |
| `Schedule.Min` | battery_monitoring.py:317 | `min` of a non-empty list is one of its elements and no larger than any of them |
| `Schedule.NextInterval` | battery_monitoring.py:316-317 | the loop's sleep is 20, 40 or the base interval, and at least one second when the base is |
| `Schedule.NextIntervalLowBattery` | battery_monitoring.py:316-317 | one battery known at 20% or less makes the next sleep 20 s, whatever the others read |
| `Schedule.NextIntervalMidBattery` | battery_monitoring.py:316-317 | when every known charge is above 20% and one is at most 40%, the next sleep is 40 s |
| `Schedule.NextIntervalHighBatteries` | battery_monitoring.py:316-317 | when some charge is known and every known charge is above 40%, the next sleep is the base interval |
| `Schedule.NextIntervalUnknownCharge` | battery_monitoring.py:274-317 | with no charge known, the sleep is 20 s for a base of 20 s or less, 40 s for a base of 21 to 40 s, and never shorter than the base; it equals the base if and only if the base is above 40 s or exactly 20 s or 40 s |
| `Schedule.NextIntervalPositive` | battery_monitoring.py:61-317 | for every `--interval` value the next sleep is at least one second |
| `Schedule.DynamicIntervalExamples` | battery_monitoring.py:274-279 | 15% gives 20 s, 35% gives 40 s, 70% with the default base gives 60 s |
| `Monitor.InitNotified` | battery_monitoring.py:284-288 | `init_notified` is keyed by exactly the startup batteries, each with all four latches clear |
| `Monitor.Reconcile` | battery_monitoring.py:301-305 | when the tracked names differ from the names read, the map becomes all-clear latches keyed by exactly the startup batteries; otherwise it is kept |
| `Monitor.UpdateBattery` | battery_monitoring.py:311-314 | one battery's four checks send at most four notifications, each about that battery and its known charge; with the charge unknown the four bits are kept and nothing is sent |
| `Monitor.UpdateAll` | battery_monitoring.py:307-314 | updating the batteries one after another keeps the key set of the latch map and sends at most four notifications per battery |
| `Monitor.ReconcileNeverResets` | battery_monitoring.py:284-305 | a map keyed by the startup batteries is never reset, because the readings are one per startup battery |
| `Monitor.UpdateBatteryIndependent` | battery_monitoring.py:311-314 | each class's new bit depends only on that class's old bit; the four classes are updated independently |
| `Monitor.UpdateBatteryIdempotent` | battery_monitoring.py:311-314 | updating a battery again with the same reading changes none of its four bits and sends nothing |
| `Monitor.UpdateAllFrame` | battery_monitoring.py:307-314 | the entries of batteries that were not read are left unchanged |
| `Monitor.UpdateAllEntry` | battery_monitoring.py:307-314 | with distinct names, each battery read gets exactly its own four-check update |
| `Monitor.SettledIsFixpoint` | battery_monitoring.py:307-314 | if every battery read is at a fixed point of its update, the poll's updates change nothing and send nothing |
| `Monitor.SettleStep` | battery_monitoring.py:307-314 | updating one more battery keeps the earlier ones at their fixed point and brings the new one to its fixed point |
| `Monitor.UpdateAllSettles` | battery_monitoring.py:307-314 | after one round of updates, every battery read is at a fixed point, provided readings with the same name are equal |
| `Monitor.PollStep` | battery_monitoring.py:296-314 | one poll sends at most four notifications per startup battery |
| `Monitor.PollTwiceQuiet` | battery_monitoring.py:296-314 | a second poll of an unchanged snapshot sends no notification and leaves every latch as the first poll set it |
| `Monitor.PollKeepsKeys` | battery_monitoring.py:284-314 | after any poll the map is keyed by exactly the startup batteries |
| `Monitor.Monitor.constructor` | battery_monitoring.py:284-294 | the monitor starts with all-clear latches for every startup battery and a base interval of at least one second |
| `Monitor.Monitor.CheckBattery` | battery_monitoring.py:311-314 | the battery's entry becomes its four-check update, in place; the other entries are unchanged; notifications are sent in the order low, high, unplug, full |
| `Monitor.Monitor.CheckAll` | battery_monitoring.py:307-314 | the loop over readings leaves the map and notification list that `UpdateAll` gives |
| `Monitor.Monitor.Poll` | battery_monitoring.py:296-317 | one loop iteration gives the map and notifications of `PollStep`, keeps the map keyed by the startup batteries, and returns the sleep from `dynamic_interval`, at least one second |

## Left out

- Command-line parsing, logging setup, `log`, the `--show-log` tail printing, and the log line written for every battery (lines 41-112 and 309). These are argument and log-library plumbing. The `--interval` value is a constructor parameter.
- `rotate_log` (lines 237-269): file stat, rename and handler swapping.
- Notification delivery (lines 171-189). A notification is a value with class, battery, charge, urgency, icon and timeout. The `notify-send` subprocess, the dry-run switch, the check that `notify-send` exists, the message texts and the timeout formatting are not modelled. `DEFAULT_TIMEOUT_MS` does not appear, because every check passes its own timeout.
- Directory enumeration in `detect_power_devices`, and the exit when no battery is found (lines 117-130). The startup battery and adapter names are parameters. Only the name-prefix tests are modelled.
- File I/O in `safe_read`. One poll reads from one file-system snapshot, a map from (device, file) to text, where a missing key is a read error. The model does not capture files changing between the reads of a single poll.
- `time.sleep` and the endless `while True` loop (lines 296 and 318). `Poll` is one iteration. `Run` and `PollTwiceQuiet` cover sequences of polls.
- Text.Lower: maps only the ASCII capitals. Python's `str.lower` also lowers capitals from other scripts.
- Text.ParseInt: no digit-count limit. CPython raises `ValueError` when converting more than 4300 digits, which no kernel capacity file reaches; `ParseFormatRoundTrip` is the model's round trip, not CPython's beyond that limit.
- Text.ParseInt: accepts only ASCII digits. Python's `int()` also accepts decimal digits from other scripts, such as Arabic-Indic digits.
- Monitor.Monitor.CheckBattery: the source mutates the inner dictionary `notified[name]` in place. The model reads that entry as a value, overwrites its four bits in turn, and stores it back. Nothing else reads the entry in between, so the result is the same. Aliasing of the inner dictionary is not modelled.
