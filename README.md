# Clock, stopwatch and timer widgets — a Dafny model

This project models the logic of three small browser widgets:

- the plain live clock (`clock/script/script.js`), which shows the hour,
  minute and second as `HH:MM:SS`;
- the clock with a 12/24-hour toggle (`script/script.js`), which shows the
  hour as `hours % 12 || 12` in 12-hour form;
- the stopwatch/timer manager (`stopwatch/script/script.js`): the `Timepiece`
  lifecycle (`startPause`, `start`, `pause`, `reset`, `update`, `formatTime`,
  `pad`), its `Stopwatch` and `Timer` variants, the conversion of the timer's
  hour/minute/second inputs to milliseconds, and the client-side accounts
  (register, log in, change password, delete account, log out) kept as a map
  from email to password.

Modules:

| file | module | what it holds |
|---|---|---|
| options.dfy | Options | `Option` |
| text.dfy | Text | `toString()` of a non-negative integer, `padStart`, the two-digit `pad`, and the digit-string reader that inverts them |
| clock.dfy | Clock | the `HH:MM:SS` readout and its reader |
| twelve_hour_clock.dfy | TwelveHourClock | the 12/24-hour conversion and the `ClockFace` class (format flag, drawn text, the two buttons) |
| time_format.dfy | TimeFormat | `formatTime` as `HH:MM:SS.t`, its fields, and its reader |
| timepieces.dfy | Timepieces | the duration inputs, and the `Stopwatch` and `Timer` classes |
| accounts.dfy | Accounts | the account actions as functions on a `Store`, and the `AccountStorage` class whose methods apply them in place |

How the environment is modelled:

- The wall clock (`Date.now()`, `new Date()`) is a parameter: `now` in
  milliseconds, or the hour, minute and second of the reading.
- The refresh interval handle is the boolean `ticking`. `setInterval` sets
  it and `clearInterval` clears it. Each 100 ms refresh is an explicit call
  of `Tick(now)`, which requires `ticking` because the interval only fires
  while it is set.
- The text of a display element is a `display` string field.
- The blocking `alert('Timer ended!')` increments the timer's `alerts`
  counter. The account alerts are returned as a `Notice`.
- Browser storage for accounts is the `users` map and the `currentUser`
  option of `AccountStorage`.

Behaviour kept as the code has it:

- `getCurrentTime` of the stopwatch does not look at `isRunning`.
  `Stopwatch.CurrentTime` returns `now - startTime` in every state, and its
  contract ties that to the elapsed total only while running.
- `reset` pauses unconditionally. On a paused stopwatch that `pause` sets
  `elapsedTime` to `now - startTime`, which the reset then zeroes.
- The timer's Start/Pause button first overwrites `remainingTime` with the
  duration inputs (`Timer.ClickStartPause`). A resume therefore restarts from
  the full input duration, and a pause keeps `duration - (now - startTime)`.
- The change-password and delete-account buttons test `currentUser &&
  users[currentUser]`. An empty email is false in JavaScript, so a session
  opened by registering the empty email cannot change its password or
  delete itself (`Accounts.EmptyEmailSession`).

## Model

| member | source | states |
|---|---|---|
| Text.NatToStringDigits | stopwatch/script/script.js:48-50 | `toString()` of n >= 0 is a non-empty digit string, with a leading '0' exactly for 0, and one digit exactly when n < 10 |
| Text.DecimalRoundTrip | stopwatch/script/script.js:48-50 | reading the digits of `toString()` back gives n again |
| Text.PadStartSpec | stopwatch/script/script.js:48-50 | `padStart(width, fill)` keeps a string that is wide enough; otherwise the result is exactly `width` long, ends with the string and is filled in front |
| Text.PadTwoDigits | stopwatch/script/script.js:48-50 | for n < 100, `pad(n)` is exactly two characters: the tens digit and the units digit |
| Text.PadOnlyWidens | stopwatch/script/script.js:48-50 | `pad` leaves numbers >= 10 unchanged and puts a single '0' before a number below 10 |
| Text.PadValue | stopwatch/script/script.js:48-50 | padding never changes the number the digits stand for |
| Clock.ReadoutShape | clock/script/script.js:3-7 | each of hour, minute and second is padded to two digits and the three are joined by ':' |
| Clock.ReadoutRoundTrip | clock/script/script.js:3-7 | for hour 0..23 and minute, second 0..59 the readout is 8 characters and reads back as the same three fields, with the hour not converted |
| TwelveHourClock.TwelveHourRange | script/script.js:9-11 | in 12-hour form the shown hour is in 1..12 and equal to the hour modulo 12; 0 and 12 show 12, 13 shows 1 |
| TwelveHourClock.TwentyFourHourIdentity | script/script.js:5-11 | in 24-hour form the hour is shown unchanged |
| TwelveHourClock.ReadoutRoundTrip | script/script.js:5-13 | the drawn string is 8 characters and reads back as the displayed hour with the same minute and second |
| TwelveHourClock.ClockFace.constructor | script/script.js:1 | the format flag starts in 12-hour form |
| TwelveHourClock.ClockFace.UpdateTime | script/script.js:3-16 | the clock text becomes the readout in the current form; the flag is unchanged |
| TwelveHourClock.ClockFace.Select12Hour | script/script.js:21-24 | the 12hr button sets the flag and redraws in 12-hour form |
| TwelveHourClock.ClockFace.Select24Hour | script/script.js:26-29 | the 24hr button clears the flag and redraws exactly the plain clock's readout |
| TimeFormat.FieldRanges | stopwatch/script/script.js:40-43 | tenths 0..9, seconds and minutes 0..59, hours 0..23 |
| TimeFormat.FieldsCompose | stopwatch/script/script.js:40-43 | the four fields put back together are the time in whole tenths modulo 24 hours |
| TimeFormat.FormatShape | stopwatch/script/script.js:39-50 | the display is `HH:MM:SS.t`: two digits per field, ':' twice, '.' and the tenths digit |
| TimeFormat.FormatRoundTrip | stopwatch/script/script.js:39-45 | reading the display back yields the time in tenths modulo one day |
| TimeFormat.FormatZero | stopwatch/script/script.js:28-45 | the display of 0, which every reset shows, is `00:00:00.0` |
| TimeFormat.WholeSecondsShown | stopwatch/script/script.js:39-45 | a whole number of h/m/s milliseconds is shown with those fields (hours modulo 24) and tenths 0 |
| Timepieces.UnparsedFieldIsZero | stopwatch/script/script.js:228-233 | an input that does not parse counts as 0; non-negative fields give a non-negative duration |
| Timepieces.DurationShown | stopwatch/script/script.js:228-233 | the duration is `((h*3600)+(m*60)+s)*1000`, and the timer display shows it as those fields |
| Timepieces.TotalAppend | stopwatch/script/script.js:65-68 | closing one more running interval adds its length to the total |
| Timepieces.Stopwatch.constructor | stopwatch/script/script.js:53-58 | a new stopwatch is paused with startTime = elapsedTime = 0 and shows zero |
| Timepieces.Stopwatch.CurrentTime | stopwatch/script/script.js:76-78 | the reading is `now - startTime`; while running it is the closed intervals' total plus the time since the latest start |
| Timepieces.Stopwatch.Start | stopwatch/script/script.js:60-63 | `startTime` is rebased to `now - elapsedTime`, running and ticking are set, and the elapsed total is kept |
| Timepieces.Stopwatch.Pause | stopwatch/script/script.js:65-68 | `elapsedTime = now - startTime`; from running, that is the previous elapsed time plus `now - t0`, and the interval joins the closed ones |
| Timepieces.Stopwatch.StartPause | stopwatch/script/script.js:9-15 | flips `isRunning`, and pauses or starts accordingly; the elapsed total stays the sum of the running intervals |
| Timepieces.Stopwatch.ResetTime | stopwatch/script/script.js:70-74 | elapsedTime = startTime = 0, returns 0 |
| Timepieces.Stopwatch.Update | stopwatch/script/script.js:34-37 | with reset, zeroes the counters and shows `formatTime(0)`; otherwise shows `formatTime(now - startTime)` and changes nothing else |
| Timepieces.Stopwatch.Tick | stopwatch/script/script.js:17-20 | a refresh while ticking shows the elapsed total plus the open interval |
| Timepieces.Stopwatch.Reset | stopwatch/script/script.js:28-32 | from any state: not running, not ticking, elapsedTime = startTime = 0, display `00:00:00.0` |
| Timepieces.Timer.constructor | stopwatch/script/script.js:81-86 | a new timer is paused with `remainingTime = duration` |
| Timepieces.Timer.CurrentTime | stopwatch/script/script.js:103-105 | the reading is `remainingTime - (now - startTime)`, which is <= 0 exactly when now >= startTime + remainingTime |
| Timepieces.Timer.Start | stopwatch/script/script.js:88-91 | `startTime = now`, running and ticking set, remaining time kept |
| Timepieces.Timer.Pause | stopwatch/script/script.js:93-96 | `remainingTime` drops by exactly `now - startTime`; running and ticking cleared |
| Timepieces.Timer.StartPause | stopwatch/script/script.js:9-15 | flips `isRunning`, pausing or starting accordingly |
| Timepieces.Timer.ResetTime | stopwatch/script/script.js:98-101 | remainingTime = 0, returns 0 |
| Timepieces.Timer.Update | stopwatch/script/script.js:107-115 | with reset: remaining 0 and shows `formatTime(0)`, no alert; without reset and reading <= 0: not running, not ticking, remaining 0, display `00:00:00.0`, exactly one more alert; otherwise shows the reading and changes nothing else; the expiry branch cannot re-enter itself |
| Timepieces.Timer.Expire | stopwatch/script/script.js:108-112 | the timer ends reset, showing `00:00:00.0`, with one more alert |
| Timepieces.Timer.Tick | stopwatch/script/script.js:17-20 | a refresh at or after startTime + remainingTime ends the countdown and clears the interval (no further refresh, so no second alert); earlier it shows the time left |
| Timepieces.Timer.Reset | stopwatch/script/script.js:28-32 | from any state: not running, not ticking, remaining 0, display `00:00:00.0`, no alert |
| Timepieces.Timer.ApplyDuration | stopwatch/script/script.js:166-172 | the Apply button sets `remainingTime` to the input duration |
| Timepieces.Timer.ClickStartPause | stopwatch/script/script.js:183-190 | the Start/Pause button overwrites the remaining time with the inputs, then toggles; a resume restarts from the full duration |
| Timepieces.TwoRunsAddUp | stopwatch/script/script.js:60-68 | two start/pause pairs leave `elapsedTime = (t1 - t0) + (t3 - t2)` |
| Timepieces.FiveSecondCountdown | stopwatch/script/script.js:107-115 | a 0h 0m 5s timer started at t0 shows `00:00:00.1` at t0 + 4900; at t0 + 5000 it shows `00:00:00.0`, has raised one alert and stopped ticking |
| Accounts.RegisterOutcome | stopwatch/script/script.js:255-262 | registering an existing email fails and leaves the store unchanged; a new email is added with its password and signed in |
| Accounts.LoginOutcome | stopwatch/script/script.js:263-270 | login succeeds iff the email is present with that password; success signs it in, failure changes nothing |
| Accounts.RegisterThenLogin | stopwatch/script/script.js:253-271 | after registering, the email logs in with its password and with no other |
| Accounts.ChangeThenLogin | stopwatch/script/script.js:320-332 | after a password change the user logs in with the new password, not with a different old one; other users are untouched |
| Accounts.DeleteThenLogin | stopwatch/script/script.js:334-347 | after deletion nobody is signed in, the email cannot log in and can register again; other users are untouched |
| Accounts.NoAccountNoChange | stopwatch/script/script.js:324-346 | without a signed-in registered account both buttons fail and change nothing |
| Accounts.EmptyEmailSession | stopwatch/script/script.js:321-324 | a session under the empty email is not recognised by the change-password and delete-account buttons |
| Accounts.AccountStorage.constructor | stopwatch/script/script.js:254 | nothing stored: no users, no one signed in |
| Accounts.AccountStorage.AuthenticateUser | stopwatch/script/script.js:253-271 | updates the stored users and current user exactly as `AuthOutcome` says, returning its success flag and alert |
| Accounts.AccountStorage.ChangePassword | stopwatch/script/script.js:320-332 | updates the store as `ChangePasswordOutcome` says |
| Accounts.AccountStorage.DeleteAccount | stopwatch/script/script.js:334-347 | updates the store as `DeleteAccountOutcome` says |
| Accounts.AccountStorage.Logout | stopwatch/script/script.js:302-306 | forgets the current user and keeps the users |

## Left out

- DOM construction and wiring: `addTimepiece` element building, name editing and the remove button, `createDurationInputs`, `showAppContainer` and `hideAppContainer`. Only the state the handlers change is modelled.
- Parsing of the duration inputs (`parseInt`): each field is given already parsed, with None for a value that does not parse.
- `saveTimepieces` and `loadTimepieces`, and the removal of the `timepieces` key by log-out and account deletion. Persistence of the widget list is storage plumbing. It also does not round-trip: the type is guessed from the header text, and the duration is re-read from inputs that are recreated at 0.
- `setInterval`/`clearInterval` scheduling, the 100 ms and 1000 ms periods, `Date.now()`, `new Date()` and the blocking of `alert`. These are replaced by `ticking`, explicit `Tick`/`UpdateTime` calls, the `now` parameter and alert counters or notices.
- `formatTime` on negative times, where JavaScript's `%` and `Math.floor` differ from Dafny's Euclidean operators. `TimeFormat.FormatTime` takes a `nat`.
- Timepieces.Timer.Update: the expiry check and the display share one clock reading `now`. The source reads the clock twice, once for the check (stopwatch/script/script.js:108) and once for the display (stopwatch/script/script.js:35 through :104). A reading just above 0 at the check can therefore become negative by the time the display is drawn. The source would then show `formatTime` of a negative time, which the model does not capture.
- Timepieces.Stopwatch.Update: requires `now - startTime >= 0` when not resetting (a clock that does not run backwards), because `FormatTime` takes a `nat`.
- Timepieces.Stopwatch.Tick: requires `now - startTime >= 0` for the same reason.
- JavaScript object-key quirks of the user map: inherited property names such as `toString` count as present in `users[email]`. The model's map contains only registered emails.
- Password security: passwords are stored in plain text by the source, and the model only tracks the map.
- The widget's name is kept as a constant field, and each widget has its own `display` field. In the source the display element is found by the id `display-${name}` (stopwatch/script/script.js:36, 110, 177). Widgets created by the Add buttons all have the name `undefined` (stopwatch/script/script.js:308-309), so they all write into the first such element. The model does not capture this sharing of display elements.
