# CodePop post-checkout fulfilment screen, modelled in Dafny

CodePop is a storefront for a drink-dispensing service. After a customer pays,
the `PostCheckout` screen shows three things. The first is a five-digit locker
combination. The second is a countdown from 60 seconds, shown as mm:ss. The
third is a "Your drink is ready!" message once the countdown reaches zero.
This project models that screen's logic and proves its properties.

- `decimal.dfy` (module `Decimal`) holds the integer-to-text conversion of
  JavaScript's `String(n)` and `n.toString()` for integers below 2^53 (which
  covers every value the screen converts), the left padding of
  `padStart(width, '0')`, and a digit-string reader used to state round trips.
- `locker_combo.dfy` (module `LockerCombo`) holds `handleLockerCombo`. It is a
  `for` loop that appends the text of five random digits in draw order. The
  random source is an input: the sequence of drawn digits.
- `clock_display.dfy` (module `ClockDisplay`) holds the mm:ss formatting and
  the ready condition `timeLeft === 0`.
- `countdown.dfy` (module `Countdown`) holds class `PostCheckout`, with the
  component state `timeLeft` and `lockerCombo`. The constructor is the initial
  `useState` values `''` and `60`. `Mount` is the effect's first run. `Tick` is
  one firing of the one-second interval, followed by the effect run that the
  change of `timeLeft` triggers. Two ghost fields tie the state together:
  `mounted` and `ticks` (the number of ticks since mount). The object invariant
  `Valid()` states `timeLeft == 60 - ticks`, `0 <= timeLeft`, and that after
  mount the combination is five digits.

Three consequences of the code shape the model:

- The locker combination is not fixed for the session. The effect depends on
  `[timeLeft]` and calls `handleLockerCombo` on every run, including the run
  after the last tick. So `Mount` and every `Tick` replace `lockerCombo` with
  a combination built from fresh draws.
- There is no tick at zero. The code arms no interval when `timeLeft` is 0,
  so `Tick` requires `Counting()` (mounted and `timeLeft > 0`). `Ready()` is
  proved to hold exactly when `Counting()` fails after mount.
- There is no status field. Readiness is the test `timeLeft === 0` on the
  rendered value.

## Model

| member | source | states |
|---|---|---|
| `Decimal.DigitChar` | codepop/src/pages/PostCheckout.js:41-42 | the text of a draw 0..9 is one digit character, whose value is the draw |
| `Decimal.NatToString` | codepop/src/pages/PostCheckout.js:42 | the decimal text of n (`String(n)` for integers below 2^53) is a non-empty digit string; it starts with '0' exactly when n is 0 (no leading zeros); it has one character exactly when n < 10 |
| `Decimal.ParseNatToString` | codepop/src/pages/PostCheckout.js:48-49 | reading back the decimal text of n gives n |
| `Decimal.NatToStringTwoDigits` | codepop/src/pages/PostCheckout.js:48-49 | the text of n is at most two characters exactly when n < 100 |
| `Decimal.PadStart` | codepop/src/pages/PostCheckout.js:48-49 | `padStart` leaves strings of at least the width unchanged; otherwise the result is exactly the width; the original is its suffix and every added character is the fill |
| `Decimal.ParseLeadingZeros` | codepop/src/pages/PostCheckout.js:48-49 | zeros added on the left keep a digit string a digit string and do not change its value |
| `Decimal.TwoDigitField` | codepop/src/pages/PostCheckout.js:48-49 | for n < 100 the padded field is exactly two digits and reads back as n |
| `LockerCombo.ComboOf` | codepop/src/pages/PostCheckout.js:39-43 | the combo string built from the draws has one character per draw, and character i is draw i's digit (a 0 draw gives '0', so leading zeros are kept) |
| `LockerCombo.ComboRoundTrip` | codepop/src/pages/PostCheckout.js:39-43 | the combination is all digits and decodes back to the draws, so distinct draws give distinct combinations |
| `LockerCombo.BuildCombo` | codepop/src/pages/PostCheckout.js:37-45 | the five-pass loop yields exactly five digit characters, digit i is draw i, and the result equals the specification `ComboOf` |
| `ClockDisplay.Minutes` | codepop/src/pages/PostCheckout.js:48 | `Math.floor(timeLeft / 60)`: the whole minutes m with m * 60 <= t < (m + 1) * 60 |
| `ClockDisplay.Seconds` | codepop/src/pages/PostCheckout.js:49 | `timeLeft % 60`: below 60, and minutes * 60 + seconds is t |
| `ClockDisplay.Field` | codepop/src/pages/PostCheckout.js:48-49 | `String(n).padStart(2, '0')` is at least two digits; below 100 exactly two digits that read back as n; from 100 on wider than two |
| `ClockDisplay.FormatClock` | codepop/src/pages/PostCheckout.js:48-66 | the rendered `{minutes}:{seconds}`: for t < 6000 five characters with ':' in the middle, the first field reads as `Minutes(t)` and the second as `Seconds(t)`, and the whole reads back as t under a reader that accepts only seconds below 60; from 6000 on longer than five |
| `ClockDisplay.ShowsReady` | codepop/src/pages/PostCheckout.js:66-68 | the test `timeLeft === 0`: the ready message is shown exactly when the timer reads "00:00" |
| `ClockDisplay.ClockExamples` | codepop/src/pages/PostCheckout.js:48-66 | 60 s shows "01:00", 59 s shows "00:59", 0 s shows "00:00" |
| `Countdown.PostCheckout.constructor` | codepop/src/pages/PostCheckout.js:19-20 | initial state: empty combination, 60 seconds left, not mounted |
| `Countdown.PostCheckout.RunEffect` | codepop/src/pages/PostCheckout.js:22-24 | each effect run replaces the combination with the five-digit one built from its draws, leaves `timeLeft` alone, marks the component mounted and keeps the invariant |
| `Countdown.PostCheckout.Mount` | codepop/src/pages/PostCheckout.js:22-35 | after mount: 60 seconds left, zero ticks, combination built from the mount draws, invariant holds |
| `Countdown.PostCheckout.Tick` | codepop/src/pages/PostCheckout.js:27-30 | only while counting (mounted, time left > 0); lowers `timeLeft` by exactly 1, adds one tick, replaces the combination with one from the new draws, keeps the invariant (never negative) |
| `Countdown.PostCheckout.Display` | codepop/src/pages/PostCheckout.js:48-66 | the screen's timer text is five characters with ':' in the middle, its fields read as the minutes and seconds of `timeLeft`, and the whole reads back as `timeLeft` |
| `Countdown.PostCheckout.Ready` | codepop/src/pages/PostCheckout.js:68 | after mount, ready exactly when no further tick is possible; ready exactly when the timer reads 00:00; ready exactly after 60 ticks |
| `Countdown.RunCountdown` | codepop/src/pages/PostCheckout.js:20-35 | after mount and k ≤ 60 ticks, `timeLeft` is 60 − k; the combination is the one from the last effect run's draws; ready exactly when k is 60 |

## Left out

- `Math.random()` and `Math.floor` on floating point (PostCheckout.js:41): each effect run takes its five digits 0..9 as an input sequence. Uniformity and independence of the digits are not modelled.
- The `setInterval`/`clearInterval` mechanism and the effect cleanup (PostCheckout.js:28-33): only their net effect is modelled, one decrement per tick while `timeLeft > 0`. Wall-clock timing and React's asynchronous scheduling are not modellable here.
- React rendering, styles, `Image`, `Button`, `NavBar` and the "Rate Drink" `alert` (PostCheckout.js:51-151): presentation only. The rendered timer text and the ready condition are modelled.
- codepop/src/pages/CheckoutForm.js: a thin wrapper over the payment SDK's sheet calls and one `fetch`. It holds no state beyond `loading`, set when initialisation reports no error; its remaining branches only choose an error or success alert.
- codepop_backend/backend/views.py and urls.py: server views, payment SDK calls and routing tables, outside the screen's logic.
- codepop/src/pages/ManagerDash.js and codepop/src/components/Gif.js: network plumbing, a floating-point sum for display and a floating-point styling offset.
- Decimal.NatToString: models the decimal text of unbounded naturals, not JavaScript number-to-string conversion in general. For doubles from 10^21 on `String` switches to exponent notation, and above 2^53 it prints the nearest double's shortest digits. The screen only converts 0..9 and 0..60, so this does not affect the model.
- Intent creation, sheet presentation, payment outcomes and retries: the code is only the SDK and `fetch` calls in CheckoutForm.js above, with no state of its own to model.
