# WordView revision and clock helpers, modelled in Dafny

WordView is an Android client for learning a language through songs. This
project models the small, self-contained pieces of its code that have
behaviour you can state exactly:

- **The seek bar label** (`formatTime`). It writes a playback position in
  milliseconds as `MM:SS`. Each field is at least two digits wide. A position
  that is not positive is written `0:00` instead, which is a different text
  from the `00:00` written for 1 to 999 ms.
- **The revision countdown** (`ReviseTimer`). A five-minute countdown that
  writes the time left as `M:SS` (minutes unpadded) into the revision view
  model on every tick.
- **Label capitalisation** (`capitalize`, `languageDisplayName`). The first
  letter is upper case and the rest lower case.
- **Revise screen lookup** (`ReviseScreen.getByRoute`). A first-match search
  over the two revise screens by route, giving `null` when nothing matches.
- **The revision view model** (`WordReviseViewModel`). A list of words to
  revise, the word on screen, the screen route, the answer status and the
  countdown text. `nextWord` removes every entry with the current word's
  surface text, puts the current word back just before the last entry, and
  picks any entry as the next word.

Modules, one per source file, plus two shared ones:

- `Wrappers`: the `Option` type. It stands for Kotlin's `null` and for thrown
  index exceptions.
- `Formatting`: JVM `Long` division and remainder, which truncate toward zero
  (`TruncDiv`, `TruncRem`). It also holds the `%d`/`%0Nd` conversions of
  `String.format` (`FormatDecimal`) and a reader for `M:SS` text
  (`ParseClock`). The reader is the partner of both clock formatters: every
  label is proved to read back as its minutes and seconds.
- `Seekbar`, `Timer`, `StringExtensions`, `ReviseScreens`, `ReviseModel`: one
  per core source file.

State that the Kotlin code keeps in singletons becomes objects.
`WordReviseViewModel` is a class whose fields are the five state flows. Each
setter's `modifies` clause names only its own field. `ReviseTimer` is a class
holding the view model it writes to. The lyric timeline, cue lookup,
tokenizer and dictionaries of the wider app are not modelled here; see
"Left out".

## Model

| member | source | states |
|---|---|---|
| Formatting.TruncDiv | app/src/main/java/cc/wordview/app/ui/components/Seekbar.kt:89 | `Long` division rounds toward zero: the quotient's magnitude times the divisor is at most the dividend's magnitude and one more quotient step exceeds it; a non-zero quotient has the dividend's sign |
| Formatting.TruncRem | app/src/main/java/cc/wordview/app/ui/screens/home/revise/ReviseTimer.kt:36-38 | `Long` remainder: quotient times divisor plus remainder is the dividend; the remainder lies in 0..b-1 for a non-negative dividend and in -(b-1)..0 for a negative one |
| Formatting.FormatDecimal | app/src/main/java/cc/wordview/app/ui/components/Seekbar.kt:91 | `%0Nd`: the text is at least N characters long, exactly N when sign and digits fit, never cut, all digits for a non-negative value, and has no colon |
| Formatting.ParseFormatDecimal | app/src/main/java/cc/wordview/app/ui/screens/home/revise/ReviseTimer.kt:39 | every `%0Nd` text, at any width and for any sign, reads back as the value formatted |
| Formatting.ParseFormattedClock | app/src/main/java/cc/wordview/app/ui/components/Seekbar.kt:91 | a clock `FormatDecimal(m):FormatDecimal(s)` reads back as exactly `(m, s)` |
| Seekbar.FormatTimeFields | app/src/main/java/cc/wordview/app/ui/components/Seekbar.kt:86-91 | for a positive position the label reads back as minutes `(ms/1000)/60` and seconds `(ms/1000)%60`; seconds are in 0..59 and minutes*60+seconds is the whole seconds |
| Seekbar.FormatTimeLayout | app/src/main/java/cc/wordview/app/ui/components/Seekbar.kt:91 | for a positive position: digits, a colon, then exactly two digits; at least five characters, exactly five under 100 minutes |
| Seekbar.FormatTimeZeroLabel | app/src/main/java/cc/wordview/app/ui/components/Seekbar.kt:87 | the label is `0:00` if and only if the position is not positive |
| Seekbar.FormatTimeUnderOneSecond | app/src/main/java/cc/wordview/app/ui/components/Seekbar.kt:87-91 | 1..999 ms gives `00:00`, which differs from the `0:00` of position 0 |
| Seekbar.FormatTimeExample | app/src/main/java/cc/wordview/app/ui/components/Seekbar.kt:89-91 | 61000 ms gives `01:01` |
| Seekbar.FormatTimeSameSecond | app/src/main/java/cc/wordview/app/ui/components/Seekbar.kt:89-90 | two positive positions get the same label if and only if they lie in the same whole second |
| Timer.FormatMillisecondsFields | app/src/main/java/cc/wordview/app/ui/screens/home/revise/ReviseTimer.kt:35-40 | the text reads back as minutes and seconds with minutes*60+seconds equal to the truncated whole seconds; for ms >= 0 these are `(ms/1000)/60` and `(ms/1000)%60`, seconds in 0..59; for ms < 0 both fields are at most zero |
| Timer.FormatMillisecondsLayout | app/src/main/java/cc/wordview/app/ui/screens/home/revise/ReviseTimer.kt:39 | for ms >= 0 the minutes are printed with no padding or leading zero, then a colon and exactly two seconds digits |
| Timer.CountdownLengthFormat | app/src/main/java/cc/wordview/app/ui/screens/home/revise/ReviseTimer.kt:25-40 | 300000 ms, the countdown's length, formats as `5:00` |
| Timer.FormatMillisecondsSameSecond | app/src/main/java/cc/wordview/app/ui/screens/home/revise/ReviseTimer.kt:36-38 | two non-negative times show the same text if and only if they lie in the same whole second |
| Timer.ReviseTimer.constructor | app/src/main/java/cc/wordview/app/ui/screens/home/revise/ReviseTimer.kt:25-27 | the timer is bound to the view model it writes to |
| Timer.ReviseTimer.OnTick | app/src/main/java/cc/wordview/app/ui/screens/home/revise/ReviseTimer.kt:29-32 | a tick sets the view model's formatted time to the formatting of the time left and may change no other field |
| StringExtensions.Lowercase | app/src/main/java/cc/wordview/app/extensions/StringExtensions.kt:29 | lower-casing keeps the length and lower-cases each character in place |
| StringExtensions.Capitalize | app/src/main/java/cc/wordview/app/extensions/StringExtensions.kt:28-30 | fails exactly on the empty string; otherwise keeps the length, its first character is the upper case of the input's first, every later character the lower case of the input's |
| StringExtensions.ReplaceFirstCharUpper | app/src/main/java/cc/wordview/app/extensions/StringExtensions.kt:36 | keeps the length, upper-cases the first character and leaves the rest; the empty string stays empty |
| StringExtensions.CapitalizeFixedPoints | app/src/main/java/cc/wordview/app/extensions/StringExtensions.kt:29 | capitalize returns capitalized text, and it leaves a string unchanged if and only if the string is already capitalized |
| StringExtensions.CapitalizeIdempotent | app/src/main/java/cc/wordview/app/extensions/StringExtensions.kt:28-30 | capitalizing twice gives the same as capitalizing once |
| StringExtensions.LanguageDisplayNameIsCapitalize | app/src/main/java/cc/wordview/app/extensions/StringExtensions.kt:33-37 | for a non-empty name the display name equals capitalize of the name; for the empty name it is the empty string while capitalize fails |
| StringExtensions.LanguageDisplayNameExample | app/src/main/java/cc/wordview/app/extensions/StringExtensions.kt:33-37 | the enum name `JAPANESE` is displayed as `Japanese` |
| ReviseScreens.FirstWithRouteFinds | app/src/main/java/cc/wordview/app/ui/screens/home/revise/ReviseScreen.kt:45-51 | the lookup returns nothing if and only if no screen has the route; otherwise it returns the first screen in list order that has it |
| ReviseScreens.GetByRoute | app/src/main/java/cc/wordview/app/ui/screens/home/revise/ReviseScreen.kt:45-51 | the loop with early return computes the first-match lookup over the screen list |
| ReviseScreens.RoutesDistinct | app/src/main/java/cc/wordview/app/ui/screens/home/revise/ReviseScreen.kt:28-43 | no two screens in the list share a route |
| ReviseScreens.GetByRouteRoundTrip | app/src/main/java/cc/wordview/app/ui/screens/home/revise/ReviseScreen.kt:43-48 | looking up any screen's own route gives that screen back |
| ReviseScreens.GetByRouteExamples | app/src/main/java/cc/wordview/app/ui/screens/home/revise/ReviseScreen.kt:28-50 | `presenter` finds Presenter, `d-a-d` finds DragAndDrop, and the empty route finds nothing |
| ReviseModel.WithoutSurfaceLength | app/src/main/java/cc/wordview/app/ui/screens/home/model/WordReviseViewModel.kt:43-47 | the filter keeps as many entries as the list has minus the ones with the current surface text |
| ReviseModel.WithoutSurfaceNoMatch | app/src/main/java/cc/wordview/app/ui/screens/home/model/WordReviseViewModel.kt:44-46 | no survivor of the filter has the current surface text |
| ReviseModel.WithoutSurfaceMultiset | app/src/main/java/cc/wordview/app/ui/screens/home/model/WordReviseViewModel.kt:44-46 | every entry with another surface text survives as often as it occurred |
| ReviseModel.WithoutSurfaceAppend | app/src/main/java/cc/wordview/app/ui/screens/home/model/WordReviseViewModel.kt:44-46 | filtering distributes over concatenation, so survivors keep their relative order |
| ReviseModel.WithoutSurfaceEmpty | app/src/main/java/cc/wordview/app/ui/screens/home/model/WordReviseViewModel.kt:44-46 | nothing survives if and only if every entry has the surface text |
| ReviseModel.WithoutSurfaceIdempotent | app/src/main/java/cc/wordview/app/ui/screens/home/model/WordReviseViewModel.kt:44-46 | filtering again by the same surface text changes nothing |
| ReviseModel.ListAdd | app/src/main/java/cc/wordview/app/ui/screens/home/model/WordReviseViewModel.kt:49 | `add(index, e)` fails exactly for an index outside 0..size; otherwise the element sits at `index` with the old prefix before it and the old suffix after it |
| ReviseModel.NextWordListFails | app/src/main/java/cc/wordview/app/ui/screens/home/model/WordReviseViewModel.kt:49 | nextWord throws if and only if every entry has the current word's surface text (including an empty list) |
| ReviseModel.NextWordListShape | app/src/main/java/cc/wordview/app/ui/screens/home/model/WordReviseViewModel.kt:49 | with survivors `f`, the new list is `f` without its last entry, then the current word, then that last entry |
| ReviseModel.NextWordListKeepsOthers | app/src/main/java/cc/wordview/app/ui/screens/home/model/WordReviseViewModel.kt:43-49 | removing the current word's surface text from the new list gives back the survivors in their original order |
| ReviseModel.NextWordListCounts | app/src/main/java/cc/wordview/app/ui/screens/home/model/WordReviseViewModel.kt:43-49 | exactly one entry of the new list has the current surface text; its length is the number of other entries plus one; it holds the survivors and the current word |
| ReviseModel.WordReviseViewModel.constructor | app/src/main/java/cc/wordview/app/ui/screens/home/model/WordReviseViewModel.kt:30-34 | initial state: the default word, empty screen route and time, empty list, no answer |
| ReviseModel.WordReviseViewModel.NextWord | app/src/main/java/cc/wordview/app/ui/screens/home/model/WordReviseViewModel.kt:42-52 | throws exactly when the filter leaves nothing, then leaving the list empty and the word unchanged; otherwise the list is the one described above and the new current word is one of its entries, possibly the same word again |
| ReviseModel.WordReviseViewModel.SetWord | app/src/main/java/cc/wordview/app/ui/screens/home/model/WordReviseViewModel.kt:54-59 | replaces the current word and nothing else |
| ReviseModel.WordReviseViewModel.SetScreen | app/src/main/java/cc/wordview/app/ui/screens/home/model/WordReviseViewModel.kt:61-63 | replaces the screen route and nothing else |
| ReviseModel.WordReviseViewModel.SetFormattedTime | app/src/main/java/cc/wordview/app/ui/screens/home/model/WordReviseViewModel.kt:65-67 | replaces the countdown text and nothing else |
| ReviseModel.WordReviseViewModel.SetAnswer | app/src/main/java/cc/wordview/app/ui/screens/home/model/WordReviseViewModel.kt:69-71 | replaces the answer status and nothing else |
| ReviseModel.WordReviseViewModel.AppendWord | app/src/main/java/cc/wordview/app/ui/screens/home/model/WordReviseViewModel.kt:73-76 | the list becomes the old list followed by the word, one longer, with no duplicate check |

## Left out

- The lyric timeline, the cue lookup (`Lyrics.getCueAt`, `Lyrics.parse`), the `gengolex` tokenizer and its dictionaries are not modelled here. They live in the `cc.wordview.app.subtitle` package and the external `gengolex` library; the modelled code calls them only from `Player.kt` and `PlayerViewModel.kt`.
- `Language.byTag` belongs to `gengolex` and is not part of this model. `LanguageDisplayName` takes the language's enum name as its input.
- StringExtensions.Capitalize: case mapping covers ASCII letters only. Every other character is left as it is, whereas Kotlin's Unicode mapping can change characters outside ASCII and even the length (`ß` upper-cases to `SS`). The same holds for `LanguageDisplayName`, `Lowercase` and `ReplaceFirstCharUpper`.
- Formatting.FormatDecimal: digits are ASCII. `String.format` uses the device's default locale, which can substitute other digit characters.
- Timer.ReviseTimer.OnTick: the `CountDownTimer` scheduling, `onFinish` (only a log line) and the comment about a websocket are left out; a tick is a call with the time left as its argument. Which values the framework passes is not modelled: the first tick reports the time left measured after `start()`, usually a few ms under 300000 and so shown as `4:59`, and until the first tick the view model's formatted time is still `""`.
- ReviseModel.WordReviseViewModel.NextWord: `random()` is modelled as an arbitrary choice from the list, not as a uniform distribution.
- State flows are modelled as plain fields. Observers, emission, and the fact that `add` mutates the list held by the flow without emitting are not modelled. Log calls are left out.
- `ReviseWord` (package `cc.wordview.app.ui.screens.home.revise.algo`) and gengolex's `Word` are not modelled in full. The model keeps only `word.word`, the surface text `nextWord` compares; `rest` stands for the other fields. The default `ReviseWord()` is a constructor argument of the view model. The revise `Answer` enum (package `cc.wordview.app.ui.screens.home.revise`) is not modelled in full either: only `Answer.NONE` appears in the view model, as `NoAnswer`, and the constructors `Correct` and `Wrong` are assumed. The `InitializeViewModel` base class of the view model is not modelled.
- The `Long` inputs of both clock formatters are unbounded integers. Only division and remainder touch them, so the 64-bit range brings no overflow.
- `asURLEncoded` wraps `URLEncoder` and is left out. The seek bar's layout and its floating-point progress fractions are left out too.
- The rest of the app (Compose screens, navigation, networking, image loading, audio playback, settings, `PlayerViewModel`) is left out: it is UI, I/O and concurrency glue.
