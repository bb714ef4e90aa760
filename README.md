# SimpleTimer chronometer core in Dafny

This project models the part of the SimpleTimer Android app that counts up and
shows the elapsed time. It has two pieces:

* `TimeUtils` turns an elapsed duration in milliseconds into the clock text the
  app shows. It splits the duration into hours, minutes, seconds and leftover
  milliseconds. It prints `H:MM:SS:CC` when at least one hour has passed and
  `MM:SS:CC` otherwise, where `CC` is the hundredths of a second. It reuses a
  caller's `StringBuilder` when one is given.
* `Chronometer` is the counting widget. It keeps a base time and the flags
  `visible`, `started`, `running`, `paused` and `logged`. It keeps an optional
  user template and an optional tick listener. Two message handlers drive it:
  TICK re-renders the text while running, FLICKER blinks the widget while paused.

Files:

* `wrappers.dfy`: the `Option` type.
* `time_utils.dfy`, module `TimeUtils`:
  * Java `long` (`Long`, `WrapLong`) and Java's truncating `/` (`JavaDiv`);
  * the `%d` and `%02d` conversions (`Signed`, `Pad2`);
  * the two templates, as sequences of conversions joined by `:` (`Format`);
  * the field decomposition (`Decompose`) and the resulting text (`ElapsedText`);
  * the imperative `FormatMillis` and `FormatElapsedTime`, which write into a
    `StringBuilder` class.
* `elapsed_parse.dfy`, module `ElapsedParse`: an independent reader for the
  clock text. Its lemmas prove that the text determines the hours, minutes,
  seconds and hundredths. Two durations give the same text exactly when they
  agree to the hundredth of a second.
* `chronometer.dfy`, module `ChronometerWidget`: the `Chronometer` class. Its
  fields mirror the Java fields. Each state-changing operation is a method
  with a `modifies` frame. These include `updateText`, `updateRunning`,
  `updateFlickering`, `dispatchChronometerTick` and the two handler callbacks.
  The three getters are methods that change nothing.

### How the chronometer is modelled

* The clock is a parameter. `SystemClock.elapsedRealtime()` becomes an explicit
  `now` argument.
* The message queues are counters:
  * `pendingTicks` is the number of TICK messages queued;
  * `pendingFlickers` is the number of FLICKER messages queued;
  * `dispatched` counts calls made to the tick listener;
  * `warnings` counts `Log.w` calls.
* Each handler callback takes one pending message off its queue. It requires
  that such a message is pending.
* `java.util.Formatter` applied to the user template is the constructor
  parameter `formatter`. It returns either the formatted string or
  `IllegalFormat`.
* `Valid()` is the class invariant. Every public operation and every handler
  callback keeps it. It combines these facts:
  * `running == visible && started`;
  * exactly one TICK is pending while running, and none otherwise;
  * FLICKER messages are pending exactly while paused;
  * a chronometer that is not paused is fully visible;
  * `warnings` is 1 once a bad template was logged, and 0 before that, so the
    warning is written at most once;
  * a format builder exists whenever a template is set.

One quirk of the code is visible in the model. Calling `stop()` on a
chronometer that is already paused queues a second FLICKER message. Nothing
cancels the first one. `Stop` states this exactly: `pendingFlickers` grows by
one on every call. `start()` cancels all FLICKER messages again.

### Where the documentation and the code differ

* The doc comments of `setFormat` (`Chronometer.java:122-130`) describe
  `MM:SS` and `H:MM:SS`, with no field after the seconds. The doc comment of
  `formatElapsedTime` (`TimeUtils.java:21-28`) describes `MM:SS:SS` and
  `H:MM:SS:SS`: it has the extra field but labels it as seconds. The code fills
  that last field with hundredths of a second (`elapsedMillis / 10`). The model
  follows the code.
* The documentation leaves negative durations open. The code still produces a
  string for them: every field but the last stays 0, and the last is
  `millis / 10` truncated toward zero and printed with `%02d`. For example,
  -1234 ms gives `00:00:-123`. The model follows the code for every `long`.
  The range and parsing lemmas require a duration of at least 0.

## Model

| member | source | states |
|---|---|---|
| TimeUtils.WrapLong | app/src/main/java/net/opencurlybraces/android/projects/simpletimer/ui/Chronometer.java:216 | `now - mBase` is computed in 64-bit `long` arithmetic. The result is the mathematical difference whenever that fits, and always agrees with it modulo 2^64 |
| TimeUtils.JavaDiv | app/src/main/java/net/opencurlybraces/android/projects/simpletimer/util/TimeUtils.java:64-66 | Java's `/` on `long` for a positive divisor: the quotient is rounded toward zero. Its properties are stated by `JavaDivTruncates` |
| TimeUtils.JavaDivTruncates | app/src/main/java/net/opencurlybraces/android/projects/simpletimer/util/TimeUtils.java:64-66 | Java's `/` on a `long` rounds toward zero. For non-negative operands it is floor division with a remainder in `[0, d)`. For negative operands the remainder lies in `(-d, 0]` |
| TimeUtils.DigitChar | app/src/main/java/net/opencurlybraces/android/projects/simpletimer/util/TimeUtils.java:13-14 | a digit 0-9 is printed as the ASCII character with that value |
| TimeUtils.Decimal | app/src/main/java/net/opencurlybraces/android/projects/simpletimer/util/TimeUtils.java:13 | `%d` of a natural number is a non-empty run of digits with no leading zero. It is one character exactly when the number is below 10. Its last digit is the number mod 10 |
| TimeUtils.DecimalRoundTrip | app/src/main/java/net/opencurlybraces/android/projects/simpletimer/util/TimeUtils.java:13 | reading back the digits printed by `%d` gives the original number |
| TimeUtils.Signed | app/src/main/java/net/opencurlybraces/android/projects/simpletimer/util/TimeUtils.java:13 | `%d` output is never empty, and its first character is `-` exactly when the value is negative |
| TimeUtils.SignedRoundTrip | app/src/main/java/net/opencurlybraces/android/projects/simpletimer/util/TimeUtils.java:13 | after the optional sign, `%d` prints a non-empty run of digits with no leading zero (unless the value is 0). Reading them back gives the magnitude of the value |
| TimeUtils.Pad2 | app/src/main/java/net/opencurlybraces/android/projects/simpletimer/util/TimeUtils.java:13-14 | `%02d` is at least two characters long. For 0-99 it is exactly the tens digit then the units digit. From 10 up it is the plain decimal. Negative values get `-` followed by the digits |
| TimeUtils.Convert | app/src/main/java/net/opencurlybraces/android/projects/simpletimer/util/TimeUtils.java:13-14 | one conversion of a template: `%d` for the unpadded hours field, `%02d` for the padded fields. Its properties are stated by `Signed`, `SignedRoundTrip` and `Pad2` |
| TimeUtils.Format | app/src/main/java/net/opencurlybraces/android/projects/simpletimer/util/TimeUtils.java:61-66 | `Formatter.format` on a template that is a list of integer conversions joined by `:`, the i-th conversion taking the i-th argument. Its three-field and four-field forms are stated by `FormatThree` and `FormatFour` |
| TimeUtils.FormatThree | app/src/main/java/net/opencurlybraces/android/projects/simpletimer/util/TimeUtils.java:14 | a three-conversion template prints its three arguments converted and separated by `:` |
| TimeUtils.FormatFour | app/src/main/java/net/opencurlybraces/android/projects/simpletimer/util/TimeUtils.java:13 | a four-conversion template prints its four arguments converted and separated by `:` |
| TimeUtils.Decompose | app/src/main/java/net/opencurlybraces/android/projects/simpletimer/util/TimeUtils.java:35-52 | the fields sum back to the input: `h*3600000 + m*60000 + s*1000 + rest == ms`. For `ms >= 0`: hours are at least 0, minutes and seconds lie in `[0, 59]`, and the rest lies in `[0, 999]`. For negative input every field is 0 and the rest is the input |
| TimeUtils.FieldsZeroIff | app/src/main/java/net/opencurlybraces/android/projects/simpletimer/util/TimeUtils.java:39-52 | for a non-negative duration, each field is 0 exactly when the remaining count is below that field's unit. So each `if` in the Java code is a true case split. Hours equal `ms / 3600000` |
| TimeUtils.ElapsedText | app/src/main/java/net/opencurlybraces/android/projects/simpletimer/util/TimeUtils.java:35-67 | the text `formatMillis` returns: the four-field template with unpadded hours when the hours are above 0, else the three-field template; the last argument is `elapsedMillis / 10` rounded toward zero. Its shape is stated by `ShortForm`, `LongForm` and the examples, and its inverse by `ElapsedParse.ParseElapsedText` |
| TimeUtils.ShortForm | app/src/main/java/net/opencurlybraces/android/projects/simpletimer/util/TimeUtils.java:65-66 | below one hour the text follows the `MM:SS:CC` template of line 14, built from the minutes, seconds and hundredths with `%02d`. It is exactly 8 characters long, with colons at positions 2 and 5 |
| TimeUtils.LongForm | app/src/main/java/net/opencurlybraces/android/projects/simpletimer/util/TimeUtils.java:62-64 | from one hour on (template of line 13), the text is `H:MM:SS:CC`. The hours are printed unpadded as `ms / 3600000`. The text is 9 characters longer than the hour digits |
| TimeUtils.ExampleZero | app/src/main/java/net/opencurlybraces/android/projects/simpletimer/util/TimeUtils.java:65-66 | 0 ms is shown as `00:00:00` |
| TimeUtils.ExampleOneMinuteOneSecond | app/src/main/java/net/opencurlybraces/android/projects/simpletimer/util/TimeUtils.java:44-66 | 61000 ms is shown as `01:01:00` |
| TimeUtils.ExampleOneHourOneMinuteOneSecond | app/src/main/java/net/opencurlybraces/android/projects/simpletimer/util/TimeUtils.java:39-64 | 3661000 ms is shown as `1:01:01:00` |
| TimeUtils.FormatMillis | app/src/main/java/net/opencurlybraces/android/projects/simpletimer/util/TimeUtils.java:33-68 | the step-by-step decomposition and formatting return `ElapsedText(elapsedMillis)` for every `long`. The result does not depend on what the buffer held before. When a buffer is given it ends up holding exactly the result |
| TimeUtils.StringBuilder.constructor | app/src/main/java/net/opencurlybraces/android/projects/simpletimer/util/TimeUtils.java:56 | a new buffer is empty; its capacity is not modelled |
| TimeUtils.StringBuilder.SetLength0 | app/src/main/java/net/opencurlybraces/android/projects/simpletimer/util/TimeUtils.java:58 | `setLength(0)` empties the buffer |
| TimeUtils.StringBuilder.Append | app/src/main/java/net/opencurlybraces/android/projects/simpletimer/util/TimeUtils.java:63-66 | the formatter writes its output at the end of the buffer, after what it held |
| TimeUtils.FormatElapsedTime | app/src/main/java/net/opencurlybraces/android/projects/simpletimer/util/TimeUtils.java:29-31 | the public entry point returns the same text as `formatMillis` and has the same effect on the buffer |
| ElapsedParse.ReadingOf | app/src/main/java/net/opencurlybraces/android/projects/simpletimer/util/TimeUtils.java:35-52 | the reading of a non-negative duration has minutes and seconds in `[0, 59]` and hundredths in `[0, 99]` |
| ElapsedParse.ElapsedTextOfReading | app/src/main/java/net/opencurlybraces/android/projects/simpletimer/util/TimeUtils.java:62-67 | the formatter prints exactly the reading's fields: four fields when the hours are above 0, three otherwise |
| ElapsedParse.ParseReadingText | app/src/main/java/net/opencurlybraces/android/projects/simpletimer/util/TimeUtils.java:13-14 | every reading with two-digit minutes, seconds and hundredths is read back from the text of its template |
| ElapsedParse.ParseElapsedText | app/src/main/java/net/opencurlybraces/android/projects/simpletimer/util/TimeUtils.java:33-68 | the clock text can be read back. Splitting it at `:` and reading the digits gives back the hours, minutes, seconds and hundredths of the duration, for every duration of at least 0 |
| ElapsedParse.ReadingCentis | app/src/main/java/net/opencurlybraces/android/projects/simpletimer/util/TimeUtils.java:39-66 | the fields of the text, weighted by their units, give the duration in whole hundredths (`ms / 10`). Nothing is lost except the last millisecond digit |
| ElapsedParse.ReadingByCentis | app/src/main/java/net/opencurlybraces/android/projects/simpletimer/util/TimeUtils.java:39-52 | the fields depend only on `ms / 10` |
| ElapsedParse.SameTextIff | app/src/main/java/net/opencurlybraces/android/projects/simpletimer/util/TimeUtils.java:33-68 | for non-negative durations `a` and `b`, the texts are equal if and only if `a / 10 == b / 10`. So the display changes exactly when a new hundredth of a second begins |
| ChronometerWidget.Toggle | app/src/main/java/net/opencurlybraces/android/projects/simpletimer/ui/Chronometer.java:261 | the blink step never yields `GONE`. It yields `VISIBLE` exactly when the view was not visible |
| ChronometerWidget.ToggleTwice | app/src/main/java/net/opencurlybraces/android/projects/simpletimer/ui/Chronometer.java:283-286 | two blink steps from `VISIBLE` or `INVISIBLE` restore the starting visibility |
| ChronometerWidget.Render | app/src/main/java/net/opencurlybraces/android/projects/simpletimer/ui/Chronometer.java:216-239 | the rendering `updateText` computes: the duration text, then the template applied to it, with the rejected flag set when the formatter throws `IllegalFormatException`. Its properties are stated by `RenderFallsBack` |
| ChronometerWidget.Chronometer.RenderAt | app/src/main/java/net/opencurlybraces/android/projects/simpletimer/ui/Chronometer.java:216-218 | the rendering at clock reading `now`: the elapsed time is `now - base` in wrapped `long` arithmetic |
| ChronometerWidget.RenderFallsBack | app/src/main/java/net/opencurlybraces/android/projects/simpletimer/ui/Chronometer.java:216-239 | with no template the text is the raw duration text. A template is rejected exactly when it is set and the formatter reports an illegal format. A rejected template leaves the raw duration text, and otherwise the formatter's output is shown |
| ChronometerWidget.Chronometer.constructor | app/src/main/java/net/opencurlybraces/android/projects/simpletimer/ui/Chronometer.java:95-102 | a new chronometer takes the current time as its base and shows `00:00:00`. All flags are false, no template, format builder or listener is set, its view visibility is `VISIBLE` while `visible` (mVisible) is false, its `recycle` buffer is newly allocated, nothing is queued, and the invariant holds |
| ChronometerWidget.InitialRendering | app/src/main/java/net/opencurlybraces/android/projects/simpletimer/ui/Chronometer.java:99-102 | with no template and 0 ms elapsed, the rendering is `00:00:00` and nothing is rejected |
| ChronometerWidget.Chronometer.Init | app/src/main/java/net/opencurlybraces/android/projects/simpletimer/ui/Chronometer.java:99-102 | `init()` makes the base the current time and renders the label as `00:00:00`. No warning is logged, because no template is set yet |
| ChronometerWidget.Chronometer.SetBase | app/src/main/java/net/opencurlybraces/android/projects/simpletimer/ui/Chronometer.java:109-113 | the base becomes `b`. The listener, if there is one, is notified once. The text is rendered for `now - b`, and the log flag is set exactly when it was already set or this rendering rejected the template. The invariant is kept |
| ChronometerWidget.Chronometer.GetBase | app/src/main/java/net/opencurlybraces/android/projects/simpletimer/ui/Chronometer.java:118-120 | returns the base as last set |
| ChronometerWidget.Chronometer.SetFormat | app/src/main/java/net/opencurlybraces/android/projects/simpletimer/ui/Chronometer.java:131-136 | stores the template. A format builder exists afterwards whenever a template is set, and an existing builder is kept. The text is not re-rendered |
| ChronometerWidget.Chronometer.GetFormat | app/src/main/java/net/opencurlybraces/android/projects/simpletimer/ui/Chronometer.java:141-143 | returns the template as last set |
| ChronometerWidget.Chronometer.SetOnChronometerTickListener | app/src/main/java/net/opencurlybraces/android/projects/simpletimer/ui/Chronometer.java:150-152 | records whether a listener is registered, and changes nothing else |
| ChronometerWidget.Chronometer.GetOnChronometerTickListener | app/src/main/java/net/opencurlybraces/android/projects/simpletimer/ui/Chronometer.java:157-159 | reports whether a listener is registered |
| ChronometerWidget.Chronometer.Start | app/src/main/java/net/opencurlybraces/android/projects/simpletimer/ui/Chronometer.java:169-174 | starts and un-pauses the chronometer. It is running exactly when visible. All FLICKER messages are cancelled and the view is fully visible. One TICK is queued when visible. The text is rendered and the listener notified only when this call starts it running, and only then can the log flag become set. Otherwise text, dispatches and log are unchanged |
| ChronometerWidget.Chronometer.Stop | app/src/main/java/net/opencurlybraces/android/projects/simpletimer/ui/Chronometer.java:183-188 | stops and pauses the chronometer. It is not running, no TICK is queued, one more FLICKER message is queued and the visibility is toggled once. The text, the listener and the log are untouched |
| ChronometerWidget.Chronometer.SetStarted | app/src/main/java/net/opencurlybraces/android/projects/simpletimer/ui/Chronometer.java:195-198 | sets `started`, after which the chronometer runs exactly when it is visible and started. Unlike `start`/`stop` the paused flag and the blinking are left alone. A rising edge renders, notifies and may set the log flag only for a rejected template. Any other call leaves text, dispatches and log unchanged |
| ChronometerWidget.Chronometer.OnDetachedFromWindow | app/src/main/java/net/opencurlybraces/android/projects/simpletimer/ui/Chronometer.java:201-205 | afterwards the view is not visible and not running, and no TICK is pending. Nothing is rendered, dispatched or logged |
| ChronometerWidget.Chronometer.OnWindowVisibilityChanged | app/src/main/java/net/opencurlybraces/android/projects/simpletimer/ui/Chronometer.java:208-212 | `visible` becomes true exactly when the window is `VISIBLE`. Running then follows `visible && started`, A rising edge renders, notifies and may set the log flag only for a rejected template. A falling edge or no change leaves text, dispatches and log unchanged |
| ChronometerWidget.Chronometer.UpdateText | app/src/main/java/net/opencurlybraces/android/projects/simpletimer/ui/Chronometer.java:214-240 | the text becomes the rendering of `now - base`. A rejected template is logged only if it was not logged before. The warning count rises by at most one and the log flag never clears |
| ChronometerWidget.Chronometer.UpdateRunning | app/src/main/java/net/opencurlybraces/android/projects/simpletimer/ui/Chronometer.java:242-254 | afterwards `running == visible && started`. With no change nothing happens. On a rising edge the text is rendered, the listener is notified, the log flag is set only for a rejected template, and one TICK is queued. On a falling edge the TICK queue is emptied and nothing else changes |
| ChronometerWidget.Chronometer.UpdateFlickering | app/src/main/java/net/opencurlybraces/android/projects/simpletimer/ui/Chronometer.java:257-269 | when paused, one FLICKER message is added and the visibility toggles. Otherwise the FLICKER queue is emptied and the view becomes `VISIBLE` |
| ChronometerWidget.Chronometer.HandleTick | app/src/main/java/net/opencurlybraces/android/projects/simpletimer/ui/Chronometer.java:271-279 | handling a pending TICK re-renders the text for `now - base`, notifies the listener once and re-queues itself. One TICK stays pending and the invariant is kept |
| ChronometerWidget.Chronometer.HandleFlicker | app/src/main/java/net/opencurlybraces/android/projects/simpletimer/ui/Chronometer.java:281-288 | handling a pending FLICKER toggles the visibility and re-queues itself, so the queue length is unchanged. Nothing else changes |
| ChronometerWidget.Chronometer.RenderAndNotify | app/src/main/java/net/opencurlybraces/android/projects/simpletimer/ui/Chronometer.java:274-275 | renders the text for `now - base`, then notifies the listener if one is set |
| ChronometerWidget.Chronometer.DispatchChronometerTick | app/src/main/java/net/opencurlybraces/android/projects/simpletimer/ui/Chronometer.java:290-294 | the listener is called exactly once when set, and not at all otherwise |

## Left out

- Handler delays (`MILLISEC`, `FLICKER_RATE`) and real time: the model has queues of pending messages but no delivery times, so it says nothing about how often TICK or FLICKER fire.
- `SystemClock.elapsedRealtime()`: each method that reads the clock takes the reading as its `now` parameter.
- `Locale.getDefault()` and locale-specific digits: digits are ASCII `0`-`9`, as in an English locale. Recreating `mFormatter` when the locale changes has no visible effect in the model and is not represented.
- `java.util.Formatter` applied to the user's template: it is an opaque function parameter of the chronometer. Only its two outcomes, formatted text or `IllegalFormatException`, are modelled.
- The four `View` constructors, `AttributeSet` styling and the `super` calls in `onDetachedFromWindow` and `onWindowVisibilityChanged`: all framework code outside this core.
- `onInitializeAccessibilityEvent` and `onInitializeAccessibilityNodeInfo`: they only set a class name for accessibility services.
- `Log.w`: reduced to the `warnings` counter. The message text is not modelled.
- `synchronized` on `updateText`: the model is single-threaded, and handler callbacks run one at a time on the UI thread.
- The tick listener's own behaviour: it is reduced to the count of calls in `dispatched`. A listener that calls back into the chronometer is not modelled.
- `setVisibility` called from outside the class, and the text view's layout: only the visibility that this class sets is tracked.
- ChronometerWidget.Chronometer.SetFormat: the builder's initial capacity (`format.length() * 2`) is a performance hint only and is not modelled.
- TimeUtils.FormatMillis: the initial capacity of the new `StringBuilder` (8) is not modelled, and neither is the `Formatter` object.
