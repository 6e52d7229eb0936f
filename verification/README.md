# Radiation storm controller — a Dafny model

This project models the controller at the heart of the RocketRadiationStorm
plugin for Unturned servers: the storm lifecycle (start, stop, the
duration countdown, the delayed damage phase, the automatic scheduler), the
per-tick pass that shows the radiation effect and deals infection damage to
exposed players, the protection checks (safezone radiators found by a
reflection probe and cached for a while, and breathable oxygen volumes), the
deadzone the storm switches on by widening the level's nodes or adding one
of its own, and the `/radiation` chat command.

The controller is a pure transition system. A `Storm.Plugin` value holds the
two storm flags, the next automatic storm time, the four timers, the
effect bookkeeping and the deadzone handle. Each timer callback, command and
player connection is one `Storm.Event`, and `Storm.Step` applies one. Timer
callbacks are only enabled while their timer is armed (`Storm.Enabled`).
Everything the server would tell the plugin (the clock, the connected
players, the placed barricades, the oxygen query, the random draw, the
map's size, whether a deadzone node can be registered) comes in as
`Storm.Env` / `Effects.World`. Everything the plugin tells the server (send
effect, clear effect, damage, broadcast, weather command) is appended to a
command log in `Effects.Book`.

Modules, one file each:

- `Common` (`common.dfy`): shared types (option, result, players, vectors, commands).
- `Text` (`text.dfy`): the string routines the source relies on: invariant lower-casing, `Contains`, decimal and `D2` formatting, splitting, trimming.
- `Settings` (`settings.dfy`): the configuration record, the enabled-feature predicates, the tick period and the default translations.
- `Reflection` (`reflection.dfy`): the radiator member probe and `ConvertToBool`.
- `Protection` (`protection.dfy`): radiator zones, the zone cache and the oxygen check.
- `Effects` (`effects.dfy`): effect reconciliation, the tick pass, clear-all and the new-player handler.
- `Deadzone` (`deadzone.dfy`): widening, creating and removing the deadzone.
- `Storm` (`storm.dfy`): the lifecycle, the timers, `Step`, the invariant.
- `RadiationCommand` (`radiation_command.dfy`): the chat command.

The central invariant (`Storm.Inv`) is kept by every enabled event. It says:

- the damage phase is only on during a storm;
- an armed delay timer means a storm without damage;
- the automatic timer runs exactly when a next storm time is known;
- nobody is recorded as carrying the effect outside the damage phase;
- the deadzone handle describes the level.

## Model

| member | source | states |
|---|---|---|
| Settings.TranslateInjective | RadiationStormPlugin.cs:102-110 | The default texts of two keys never coincide, and a key with a `{0}` slot renders different arguments differently, so a message determines its key and argument. |
| Settings.TickIntervalMs | RadiationStormPlugin.cs:112-121 | The tick period is never below 500 ms: a configured interval of at least half a second is used as is, anything shorter becomes 500 ms. |
| Text.Lower | Commands/RadiationCommand.cs:31 | Invariant lower-casing keeps the length and leaves no capital letter: each capital becomes its small letter (code point plus 32) in place, and every other character is kept in place. |
| Text.LowerIdempotent | Commands/RadiationCommand.cs:31 | Lower-casing an already lower-cased string changes nothing. |
| Text.HasInfixIff | RadiationStormPlugin.cs:893-899 | The `Contains` test used on member names holds exactly when the needle occurs at some offset of the name. |
| Text.ParseDecimalRoundTrip | Commands/RadiationCommand.cs:81-84 | Decimal text of a number reads back as that number. |
| Text.Pad2 | Commands/RadiationCommand.cs:81-84 | `D2` formatting gives at least two digits, all of them decimal digits. |
| Text.TrimStart | RadiationStormPlugin.cs:1037 | Trimming the front never lengthens the string and leaves it not starting with white space. |
| Text.TrimStartDrops | RadiationStormPlugin.cs:1037 | Trimming the front drops a white prefix and keeps the rest of the string as it was. |
| Text.TrimEnd | RadiationStormPlugin.cs:1037 | Trimming the back never lengthens the string and leaves it not ending with white space. |
| Text.TrimEndDrops | RadiationStormPlugin.cs:1037 | Trimming the back drops a white suffix and keeps the front of the string as it was. |
| Text.TrimmedWord | RadiationStormPlugin.cs:1037 | For a word with non-white ends, the lower-cased trim of a text equals the word exactly when the text is that word, in any letter case, with only white space around it. |
| Text.Pad2RoundTrip | Commands/RadiationCommand.cs:81-84 | A `D2`-formatted field reads back as the number it was made from. |
| Reflection.ParseBool | RadiationStormPlugin.cs:1037-1040 | Text parses as `true` (resp. `false`) exactly when it is the word "true" (resp. "false") in any letter case, with nothing but white space and NUL before and after it. |
| Reflection.ConvertToBool | RadiationStormPlugin.cs:1015-1043 | Null gives the fallback; a boolean is itself; a byte, sbyte, int, uint, long or ulong is true exactly when non-zero; a 16-bit integer gives the fallback. |
| Reflection.TextualConversion | RadiationStormPlugin.cs:1037-1042 | Any other value converts by its text: a padded "true" gives true, a padded "false" gives false, and any other text gives the fallback. |
| Reflection.SignedDecimalNotBool | RadiationStormPlugin.cs:1037-1042 | The decimal text of any integer never parses as a boolean. |
| Reflection.ShortIntegersGiveFallback | RadiationStormPlugin.cs:1015-1043 | 16-bit integers are not among the matched types, so converting one always yields the fallback, whatever its value. |
| Reflection.FailOpenReading | RadiationStormPlugin.cs:1837-1847 | With fallback `true`, a value reads as "off" exactly when it is `false`, a zero of a matched integer type, or text that parses as "false"; null and unparseable values read as "on". |
| Reflection.FirstMatch | RadiationStormPlugin.cs:891-908 | The chosen index is the first eligible member: it is eligible and every earlier member is not; no index means no member is eligible. |
| Reflection.BuildProbe | RadiationStormPlugin.cs:886-944 | The two-pass scan with early exit picks, for radius and for the active switch, the first fitting field, or else the first fitting readable property. |
| Reflection.ActiveFlag | RadiationStormPlugin.cs:1837-1847 | A type without a switch-like member gives no reading. Otherwise the reading is the chosen member's value converted with fallback `true`, and `true` when the member cannot be read. |
| Reflection.ActiveFlagOff | RadiationStormPlugin.cs:1837-1847 | A radiator reads as switched off exactly when its chosen switch member holds `false`, a zero of a matched integer type, or text that parses as "false". |
| Protection.TryCreateZone | RadiationStormPlugin.cs:773-873 | A drop yields no zone exactly when its asset is unknown or not a listed radiator, it has no position, or power is required and its switch reads off. Otherwise the zone is centred on the drop, its radius is the positive detected radius or the configured default, and the squared radius is stored. |
| Protection.ZonesOf | RadiationStormPlugin.cs:750-771 | Scanning the drops keeps exactly the zones of the admissible drops, never more zones than drops. |
| Protection.CollectRadiators | RadiationStormPlugin.cs:706-712 | With no radiator item ids configured, no zones are collected. |
| Protection.CollectRadiatorsIff | RadiationStormPlugin.cs:706-771 | Every admissible drop contributes a zone at its position with its effective radius, and every collected zone comes from an admissible drop. |
| Protection.UpdateCache | RadiationStormPlugin.cs:674-704 | With radiators ignored the cache is emptied. An unexpired cache is kept. An expired one is rebuilt from the drops and expires after the configured refresh time, or after one second if that is longer. |
| Protection.UpdateCacheIdempotent | RadiationStormPlugin.cs:674-704 | A second update at the same instant changes nothing. |
| Protection.RefreshedIdempotent | RadiationStormPlugin.cs:646-672 | The cache a radiator check leaves behind is stable under a second check at the same instant. |
| Protection.AnyZoneContains | RadiationStormPlugin.cs:662-671 | The radiator scan reports a hit exactly when some cached zone's squared distance test holds. |
| Protection.RadiatorCenterProtected | RadiationStormPlugin.cs:662-671 | A player standing on a radiator is inside its zone. |
| Protection.NegativeThresholdIsZero | RadiationStormPlugin.cs:1045-1054 | A negative oxygen alpha threshold acts as zero. |
| Protection.OxygenThresholdMonotone | RadiationStormPlugin.cs:1045-1054 | Raising the alpha threshold never makes a position safer. |
| Effects.ClearFor | RadiationStormPlugin.cs:590-606 | Clearing removes only that player from the recipients. A clear command is issued only for a recorded recipient and only while the effect is in use. A non-recipient is left untouched. |
| Effects.ClearIdempotent | RadiationStormPlugin.cs:590-606 | Clearing a player twice is the same as clearing once. |
| Effects.InSafezoneRadiator | RadiationStormPlugin.cs:646-672 | The answer is true exactly when radiators are respected and some zone of the refreshed cache contains the position. |
| Effects.IsProtected | RadiationStormPlugin.cs:624-644 | A player is protected exactly when shielded by a radiator zone or an oxygen volume; a protected player's effect is cleared, an unprotected player's record is untouched. |
| Effects.Ensure | RadiationStormPlugin.cs:515-544 | A shielded player is cleared. An exposed player is recorded and sent the effect every time, recorded before or not, when the effect is in use. Otherwise nothing is issued. |
| Effects.EnsureThenClear | RadiationStormPlugin.cs:515-606 | After ensuring then clearing, the player is no longer a recipient and the other recipients are as before. |
| Effects.ApplyDamage | RadiationStormPlugin.cs:546-588 | A living player takes exactly one damage command of the configured amount when that amount is positive; a dead player or a non-positive amount changes nothing, and the record never changes. |
| Effects.Visit | RadiationStormPlugin.cs:158-188 | Skipped players (dead, or exempt admins) are untouched. Shielded players only lose the effect. Exposed players draw exactly the effect and damage commands. Every command issued is about that player and nobody else's record changes. |
| Effects.VisitAll | RadiationStormPlugin.cs:158-188 | A pass only appends to the command log and leaves a cache that a further check at the same instant keeps. |
| Effects.VisitAllFrame | RadiationStormPlugin.cs:158-188 | A pass leaves alone every player it does not visit: their record is unchanged and no command concerns them. |
| Effects.VisitAllShielded | RadiationStormPlugin.cs:172-175 | In a pass, a shielded, non-skipped player ends with no effect recorded and is only ever sent clear commands. |
| Effects.VisitAllExposed | RadiationStormPlugin.cs:177-187 | In a pass, an exposed, non-skipped player is recorded and sent the effect (if on) and damaged (if on), and draws no other command. |
| Effects.VisitAllSkipped | RadiationStormPlugin.cs:162-170 | In a pass, a dead player or exempt admin keeps its record and draws no command. |
| Effects.ApplyRadiationTick | RadiationStormPlugin.cs:146-156 | With neither the effect nor damage in use, a tick does nothing; otherwise it only appends commands. |
| Effects.TickOutcome | RadiationStormPlugin.cs:146-189 | For every connected player, one tick: leaves skipped players alone; clears shielded ones and gives them neither effect nor damage; gives exposed ones the effect (if in use) and the per-tick damage (if positive) and nothing else. |
| Effects.ApplyEffectAll | RadiationStormPlugin.cs:486-513 | With the effect not in use nothing happens; otherwise commands are only appended and none of them deals damage. |
| Effects.EffectAllOutcome | RadiationStormPlugin.cs:486-513 | For every connected player, the effect pass leaves skipped players alone, leaves shielded ones unrecorded with at most a clear, and records exposed ones and sends them the effect and nothing else. |
| Effects.ClearAll | RadiationStormPlugin.cs:608-622 | Afterwards nobody is recorded. While the effect is in use, every connected client is sent one clear, in client order, recipient or not. |
| Effects.ClearAllReachesEveryClient | RadiationStormPlugin.cs:608-622 | Every connected client receives a clear from a clear-all, whether recorded or not. |
| Effects.FindClient | RadiationStormPlugin.cs:1749-1753 | The lookup returns a connected client with that identifier, or none when no client has it. |
| Effects.OnPlayerConnected | RadiationStormPlugin.cs:1745-1778 | Handling a new player only touches that player's record, issues commands only about that player, and never damages. A player no longer connected, dead or exempt changes nothing; a shielded one ends unrecorded with at most a clear; an exposed one is recorded and sent the effect when it is in use. |
| Effects.FindClientUnique | RadiationStormPlugin.cs:1749-1753 | Among players with distinct identifiers, the lookup finds the one player with the identifier. |
| Effects.ConnectedLikePass | RadiationStormPlugin.cs:1745-1778 | A player connecting while the effect is in use ends up recorded exactly when the effect pass over all players would record them. |
| Deadzone.TargetRadius | RadiationStormPlugin.cs:1618-1622 | The target radius covers both the configured radius and the map's reach, and is one of the two. |
| Deadzone.WidenFrom | RadiationStormPlugin.cs:1624-1660 | Widening keeps the level's node list and records every visited node in visiting order. |
| Deadzone.WidenRadii | RadiationStormPlugin.cs:1634-1638 | Every visited node ends at the larger of its radius and the target; other nodes keep theirs; no radius key is added except the visited nodes. |
| Deadzone.WidenOriginals | RadiationStormPlugin.cs:1630-1631 | The recorded radius of each node is the radius it had when last visited; for a duplicate-free list that is its radius before widening. |
| Deadzone.EnableNodes | RadiationStormPlugin.cs:1662-1668 | Enabling reports success exactly when the level has nodes, and records exactly the level's nodes. |
| Deadzone.WidenRaises | RadiationStormPlugin.cs:1611-1675 | Widening keeps the level well formed and its radius keys, sets every listed node to the larger of its radius and the target, so never lowers a radius and reaches at least the target. |
| Deadzone.WidenRecordsOriginals | RadiationStormPlugin.cs:1624-1631 | For a duplicate-free node list, the record holds each node's radius from before widening. |
| Deadzone.RestoreFrom | RadiationStormPlugin.cs:1680-1700 | Every widened node with a recorded radius gets it back, and every other radius is untouched. |
| Deadzone.RemoveFirst | RadiationStormPlugin.cs:1721-1723 | `List.Remove` leaves a list without the node as it is. |
| Deadzone.RemoveAfter | RadiationStormPlugin.cs:1721-1723 | When the first copy of the node follows a node-free part, removal leaves that part followed by everything after the copy. |
| Deadzone.RemoveFirstCount | RadiationStormPlugin.cs:1721-1723 | When the node is present, removal takes out exactly one copy of it: adding one copy back gives the original contents. |
| Deadzone.FirstIndex | RadiationStormPlugin.cs:1721-1723 | The position found holds the node and no earlier position does. |
| Deadzone.RemoveFirstIsFirst | RadiationStormPlugin.cs:1721-1723 | The occurrence removed is the first one, and the nodes before and after it keep their order. |
| Deadzone.RemoveDeadzone | RadiationStormPlugin.cs:1677-1735 | After removal there is nothing left to undo; with nothing recorded the level is unchanged; the plugin's own node is taken out of the list. |
| Deadzone.RemoveTwice | RadiationStormPlugin.cs:1677-1735 | A second removal changes nothing. |
| Deadzone.CreateDeadzone | RadiationStormPlugin.cs:1110-1198 | With deadzones off nothing changes. Otherwise the previous deadzone is undone first, then either the level's nodes are widened to at least the target radius, or on a level without nodes the plugin's own node of exactly the target radius becomes the only node, or, when it cannot be registered, nothing is recorded. |
| Deadzone.RemoveKeepsWellFormed | RadiationStormPlugin.cs:1677-1735 | Removing keeps every listed node paired with a radius. |
| Deadzone.CreateKeepsWellFormed | RadiationStormPlugin.cs:1110-1198 | Creating keeps the level well formed and leaves a handle that describes it. |
| Deadzone.WidenRestoreRoundTrip | RadiationStormPlugin.cs:1611-1700 | Widening and then restoring a duplicate-free node list gives back the level exactly. |
| Deadzone.CreateRemoveRoundTrip | RadiationStormPlugin.cs:1110-1735 | Starting and then stopping the deadzone on a well-formed, duplicate-free level leaves it exactly as it was, in each branch of creation. |
| Deadzone.DuplicateNodeStaysWidened | RadiationStormPlugin.cs:1631 | A node listed twice has its record overwritten by its widened radius, so removing the deadzone leaves it widened. |
| Storm.Announce | RadiationStormPlugin.cs:228-236 | With broadcasting off nothing changes; otherwise exactly one broadcast of the key's text is appended and nothing else changes. |
| Storm.WeatherOn | RadiationStormPlugin.cs:335-351 | With weather off or no weather configured nothing changes; otherwise exactly one command switching to the configured weather is appended. |
| Storm.WeatherOff | RadiationStormPlugin.cs:353-369 | With weather off or no weather configured nothing changes; otherwise exactly one command clearing the weather is appended. |
| Storm.AutoIntervalMinutes | RadiationStormPlugin.cs:266-268 | The automatic interval is at least 0.1 minutes. It equals the lower bound when the bounds meet and otherwise lies in the half-open range between them. |
| Storm.ScheduleNextAutoStorm | RadiationStormPlugin.cs:258-274 | Without a timer or with automatic storms off, the next time is cleared. Otherwise the next time is the drawn interval (in minutes) from now, at least six seconds ahead, and the timer runs with that interval as its period, but at least one second. |
| Storm.DurationTimer | RadiationStormPlugin.cs:297-313 | The duration countdown is armed exactly when the configured duration is positive, and then with that duration in milliseconds. |
| Storm.ActivateDamagePhase | RadiationStormPlugin.cs:432-464 | The delay timer is disarmed and the phase is on afterwards. If it was already on, nothing is issued; otherwise every exposed player is shown the effect. |
| Storm.ActivationReachesExposedClients | RadiationStormPlugin.cs:445-448 | Turning the phase on with the effect in use records and sends the effect to every connected player who is neither skipped nor shielded. |
| Storm.ScheduleDamageActivation | RadiationStormPlugin.cs:407-425 | The phase is on at once exactly when the delay is not positive; otherwise the delay timer is armed with that delay and nothing is issued yet. |
| Storm.DeactivateDamagePhase | RadiationStormPlugin.cs:466-471 | Turning the phase off disarms the delay and clears every client, leaving nobody recorded. |
| Storm.StartStorm | RadiationStormPlugin.cs:191-206 | Starting fails exactly when a storm is active. Success leaves: the storm on; the automatic timer stopped and no next time; the duration countdown armed as configured; the damage phase scheduled by the delay; the deadzone created; the log only extended, ending with the start broadcast when broadcasting. |
| Storm.StopStorm | RadiationStormPlugin.cs:208-222 | Stopping fails exactly when no storm is active. Success leaves: storm and damage phase off; delay and duration disarmed; nobody recorded; the deadzone removed; the stop broadcast issued; the next automatic storm scheduled when possible. |
| Storm.Step | RadiationStormPlugin.cs:136-333 | A failing start or stop changes nothing. A duration fire after the storm ended only disarms. An automatic fire during a storm only reschedules. A tick or a new player outside the damage phase changes nothing. |
| Storm.Load | RadiationStormPlugin.cs:71-84 | A loaded plugin is idle with the tick timer running; the automatic timer runs exactly when automatic storms are on, with the next storm at least six seconds ahead; on a well-formed level the invariant holds. |
| Storm.Unload | RadiationStormPlugin.cs:86-100 | After unloading no timer can fire, nobody is recorded, the deadzone is removed, and the storm flags are left as they were. |
| Storm.StartKeepsInv | RadiationStormPlugin.cs:191-206 | Starting an idle storm keeps the controller invariant. |
| Storm.StopKeepsInv | RadiationStormPlugin.cs:208-222 | Stopping a running storm keeps the controller invariant. |
| Storm.StepKeepsInv | RadiationStormPlugin.cs:136-471 | Every event that can happen keeps the invariant; in particular the damage phase is only ever on during a storm and the tick stays armed at its period. |
| Storm.RunKeepsInv | RadiationStormPlugin.cs:136-471 | Any run of events from a plugin satisfying the invariant keeps it. |
| Storm.StaleDelayFireAfterStop | RadiationStormPlugin.cs:427-430 | A delay callback already queued when the storm stops still runs the activation, which turns the damage phase on with no storm and shows the effect again. |
| RadiationCommand.FormatDuration | Commands/RadiationCommand.cs:77-85 | A countdown is made of digits and colons: five characters with a colon in the middle under an hour, and from one hour on at least eight with colons before the last two fields. |
| RadiationCommand.FormatDurationFields | Commands/RadiationCommand.cs:77-85 | A countdown reads `MM:SS` (five characters) under an hour and `HH:MM:SS` from one hour on, minutes and seconds each below sixty. |
| RadiationCommand.FormatDurationRoundTrip | Commands/RadiationCommand.cs:77-85 | Reading a countdown back gives the number of whole seconds it was made from. |
| RadiationCommand.HoursAreNotWrapped | Commands/RadiationCommand.cs:81 | Hours are the total hours, not wrapped at a day: 25 hours reads "25:00:00". |
| RadiationCommand.StatusMessage | Commands/RadiationCommand.cs:45-59 | The status line starts with the state message, and extends past it exactly when the storm is idle, automatic storms are on, and the next storm is still ahead. |
| RadiationCommand.StatusText | Commands/RadiationCommand.cs:47-55 | The status line reads the state, then, when the countdown shows, a space and the next-storm line with the remaining whole seconds. |
| RadiationCommand.Execute | Commands/RadiationCommand.cs:23-70 | The command either leaves the controller alone or has exactly the effect of a start or a stop event. |
| RadiationCommand.UsageOnUnknown | Commands/RadiationCommand.cs:25-63 | No argument, or an unknown sub-command, gets the usage line and changes nothing. |
| RadiationCommand.CaseInsensitive | Commands/RadiationCommand.cs:31-35 | Sub-commands match in any letter case and only the first argument matters. |
| RadiationCommand.StartReplies | Commands/RadiationCommand.cs:37-40 | `start` starts an idle storm and replies with the start message. On a running storm it replies with the already-active error and changes nothing. |
| RadiationCommand.StopReplies | Commands/RadiationCommand.cs:41-44 | `stop` ends a running storm and replies with the stop message. When idle it replies with the not-active error and changes nothing. |
| RadiationCommand.StatusReplies | Commands/RadiationCommand.cs:45-60 | `status` replies with the status line and changes nothing. |

## Left out

- Threads and timers: each `System.Timers.Timer` callback, with the work it queues on the main thread, is one atomic event. The interleaving of a queued callback with later events is modelled only by firing the activation after a stop (`Storm.StaleDelayFireAfterStop`).
- The clock: each event reads the time once (`World.now`, in seconds); the source reads `DateTime.UtcNow` at every cache check. The millisecond rounding of `TimeSpan` is not modelled.
- Randomness: the draw of `Random.NextDouble` is the event's `Env.random`, a real in [0, 1).
- Floating point: radii, distances, thresholds and intervals are exact reals; `float`/`double` rounding and the `float` casts are not modelled.
- `ConvertToFloat` and the radius probe's reading: a drop carries its detected radius as an optional real. The active switch is read through `Reflection.ActiveFlag`, but the probe is not connected to the barricade scan.
- Reflection discovery of the level's deadzone list and its alternative lookups: the level is given as `Deadzone.Level`. Node registration, the `refreshDeadzones`/`loadDeadzones` calls and building a node are one `canCreate` flag.
- Map size: the map's half-diagonal plus 100 m is the parameter `coverRadius`.
- Deadzone node members (damage per second, radiation per second, node type): these assignments are not modelled.
- Weather: `ExecuteWeatherCommand` dispatch is only a logged `Weather` command.
- Logging: warnings and log lines are left out.
- Exceptions: all exception handling is left out, except the start/stop errors, which are `Result` failures.
- Null values: a null player, transform or plugin instance is not modelled. `UnturnedPlayer.FromSteamPlayer` is assumed to succeed.
- Translations: only the default translation texts are modelled; the translation file is not.
- The configuration file: loading it is left out, and the configuration is a record.
- Text.Lower: maps only ASCII letters; `ToLowerInvariant`'s full Unicode mapping is not modelled.
- Text.Trim: trims the ASCII and Latin-1 white-space characters and NUL, not the full Unicode white-space set that `bool.TryParse` trims.
- RadiationCommand.FormatDurationFields: states the length only for fewer than 100 hours; the `(int)` cast of the total hours, which overflows only after about 245,000 years, is not modelled.
- Effects.ApplyRadiationTick: its own contract states only the no-op and append-only facts; the per-player outcome is stated by `Effects.TickOutcome`, which requires distinct player identifiers as Steam guarantees.
- Deadzone.RemoveDeadzone: always takes the plugin's own node out of the list. The source forgets the node even when neither the removal method nor the list field is available, and keeps it after a failed removal; in both cases the node stays in the level. That leak is not modelled, so `Deadzone.CreateRemoveRoundTrip` does not cover it.
- Storm.DurationTimer: arms the countdown with any positive period. The source's `Timer` constructor rejects an interval above `Int32.MaxValue` milliseconds (about 24.8 days) with an exception, which is not modelled.
- Storm.ScheduleDamageActivation: arms the delay with any positive period; a delay above `Int32.MaxValue` milliseconds would make the `Timer` constructor throw, which is not modelled.
- Storm.ScheduleNextAutoStorm: sets any period of at least one second; an interval above `Int32.MaxValue` milliseconds would make the `Interval` setter throw, which is not modelled.
- Storm.StepKeepsInv: holds only for events whose timer is armed (`Storm.Enabled`); a callback queued before its timer was disarmed can still run, as `Storm.StaleDelayFireAfterStop` shows.
- Deadzone.WidenRestoreRoundTrip: requires a duplicate-free node list; with a node listed twice the level is not restored, as `Deadzone.DuplicateNodeStaysWidened` shows.
