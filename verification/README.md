# Kodsnack play control — a Dafny model

This project models the decision logic of the Kodsnack Android app's play
control (`PlayControlFragment`): the strip at the bottom of the screen with a
play/pause button, a stream logo and a stream title. The Android plumbing is
left aside. What remains is two deterministic pieces:

1. **The display as a state machine.** The displayed state is an immutable
   record `ViewState(enabled, playing, title, logo)`. Each callback from the
   player service (`onPrepared`, `onPlaying`, `onPaused`, `onStopped`,
   `onBuffering`, `onError`), the click handler and the status-document
   handler is a pure function from one record to the next (`PlayControl`).
   `CallbackTrace` runs whole sequences of callbacks. It proves that each
   field of the display mirrors the last callback that writes it. It also
   proves that once the logo agrees with the title it keeps agreeing, and
   that every event that shows a title establishes that agreement.
2. **Stream-title extraction.** The streaming server's status document is an
   abstract JSON value (`StatusJson`). `ExtractTitle` walks
   `icestats.source`, prefers `title` and falls back to `server_name`. It
   turns every failed lookup (the library's `JSONException`) into a logged
   warning that leaves the display unchanged. The logo is chosen by a
   case-insensitive substring test for "appsnack" (`AsciiText`,
   `PlayControl.LogoFor`).

Files:

- `ascii_text.dfy` (`AsciiText`): ASCII lowercasing and substring search.
- `status_json.dfy` (`StatusJson`): the JSON model, typed lookups and title extraction.
- `play_control.dfy` (`PlayControl`): the view record and one transition per handler.
- `callback_trace.dfy` (`CallbackTrace`): event sequences and the "mirrors the last callback" theorems.

Parameters stand in for what the code reads from its environment:

- The localized "buffering" string is the `bufferingLabel` argument.
- The state produced by the layout before the button is disabled is the
  `inflated` argument of `OnCreateView`.
- The click handler's request to the player service is the returned
  `ServiceRequest`.

## Model

| member | source | states |
|---|---|---|
| AsciiText.Lower | app/src/main/java/se/kodsnack/PlayControlFragment.java:96 | the lowercased title keeps its length, contains no ASCII capital, keeps every other character and changes every capital |
| AsciiText.IndexOf | app/src/main/java/se/kodsnack/PlayControlFragment.java:97 | the search returns the first index at or after the start where the pattern occurs, and -1 exactly when it occurs nowhere there |
| AsciiText.Contains | app/src/main/java/se/kodsnack/PlayControlFragment.java:97 | the substring test holds exactly when some index starts an occurrence of the pattern |
| AsciiText.ContainsLowerIff | app/src/main/java/se/kodsnack/PlayControlFragment.java:96-97 | searching the lowercased title equals a case-insensitive window match on the original title |
| StatusJson.GetObject | app/src/main/java/se/kodsnack/PlayControlFragment.java:142-144 | an object lookup succeeds exactly when the key holds an object; a missing key and a non-object value throw different errors |
| StatusJson.GetString | app/src/main/java/se/kodsnack/PlayControlFragment.java:147-148 | a string lookup succeeds exactly when the key holds a string; otherwise it throws |
| StatusJson.ExtractTitle | app/src/main/java/se/kodsnack/PlayControlFragment.java:140-155 | a string `icestats.source.title` is shown; with no `title` key, a string `server_name` is shown; a missing or non-object `icestats` warns; a missing `source` does nothing, and is the only way to get no change without a warning; a non-object `source`, a non-string `title`, or (with no `title`) a non-string or missing `server_name` warns; anything shown lies at one of those two paths |
| StatusJson.IcecastStatusRoundTrip | app/src/main/java/se/kodsnack/PlayControlFragment.java:142-148 | a status document built from an optional title and an optional server name reads back as the title, else the server name, else a missing-key warning |
| PlayControl.LogoFor | app/src/main/java/se/kodsnack/PlayControlFragment.java:95-97 | the Appsnack logo is chosen exactly when some window of the title matches "appsnack" ignoring case |
| PlayControl.UpdateUI | app/src/main/java/se/kodsnack/PlayControlFragment.java:93-99 | the title is shown un-lowercased, the logo follows the appsnack rule, and the button is untouched |
| PlayControl.OnCreateView | app/src/main/java/se/kodsnack/PlayControlFragment.java:78-79 | the freshly laid-out button is disabled; everything else is as laid out |
| PlayControl.OnPrepared | app/src/main/java/se/kodsnack/PlayControlFragment.java:103-108 | the title is cleared, the logo is Kodsnack's, the button is enabled and the playing face is untouched |
| PlayControl.OnPlaying | app/src/main/java/se/kodsnack/PlayControlFragment.java:110-113 | the button shows "playing"; enabled, title and logo are unchanged |
| PlayControl.OnPaused | app/src/main/java/se/kodsnack/PlayControlFragment.java:115-118 | the button shows "paused"; enabled, title and logo are unchanged |
| PlayControl.OnStopped | app/src/main/java/se/kodsnack/PlayControlFragment.java:120-124 | the button shows "paused" and is disabled; title and logo are unchanged |
| PlayControl.OnBuffering | app/src/main/java/se/kodsnack/PlayControlFragment.java:126-130 | the buffering label is shown with the "paused" face, the logo follows the appsnack rule on the label, and enabled is unchanged |
| PlayControl.OnError | app/src/main/java/se/kodsnack/PlayControlFragment.java:132-137 | a playback error leaves the display exactly as it was |
| PlayControl.OnClick | app/src/main/java/se/kodsnack/PlayControlFragment.java:158-161 | a tap leaves the display as it was and asks the service to toggle playback |
| PlayControl.OnJsonInfo | app/src/main/java/se/kodsnack/PlayControlFragment.java:139-156 | a status document never touches the button; it shows the extracted title or, on no source or a failed lookup, changes nothing |
| PlayControl.LogoIgnoresCase | app/src/main/java/se/kodsnack/PlayControlFragment.java:96-97 | two titles that differ only in letter case get the same logo |
| PlayControl.AppsnackInAnyCase | app/src/main/java/se/kodsnack/PlayControlFragment.java:95-97 | "Kodsnack & AppSnack" and "APPSNACK" select the Appsnack logo; "Kodsnack 123" does not |
| PlayControl.JsonInfoShowsTitle | app/src/main/java/se/kodsnack/PlayControlFragment.java:140-155 | on the display: a string title is shown, else a string server name; without a source object, or with neither key, the display is unchanged |
| CallbackTrace.RunEnabled | app/src/main/java/se/kodsnack/PlayControlFragment.java:103-124 | after any callback sequence the button is enabled exactly as the last `onPrepared`/`onStopped` says, or as it started if neither came |
| CallbackTrace.RunPlaying | app/src/main/java/se/kodsnack/PlayControlFragment.java:110-130 | after any callback sequence the playing face is what the last `onPlaying`/`onPaused`/`onStopped`/`onBuffering` set |
| CallbackTrace.RunTitle | app/src/main/java/se/kodsnack/PlayControlFragment.java:103-156 | after any callback sequence the title is that of the last `onPrepared`, `onBuffering` or status document that showed one |
| CallbackTrace.RunLogo | app/src/main/java/se/kodsnack/PlayControlFragment.java:93-156 | after any callback sequence the logo is the one the appsnack rule picks for the text of the last `onPrepared`, `onBuffering` or status document that showed one, or the starting logo if none did |
| CallbackTrace.StepKeepsLogo | app/src/main/java/se/kodsnack/PlayControlFragment.java:93-130 | every event keeps the logo in agreement with the title, and `onPrepared`, `onBuffering` and a status document that yields a title each establish that agreement |
| CallbackTrace.RunKeepsLogo | app/src/main/java/se/kodsnack/PlayControlFragment.java:93-99 | once the logo agrees with the title, it agrees after any callback sequence |
| CallbackTrace.LogoAgreesAfterTitleShown | app/src/main/java/se/kodsnack/PlayControlFragment.java:93-151 | from any starting display, after a callback sequence in which some event showed a title, the logo agrees with the final title |
| CallbackTrace.SilentEventsInvisible | app/src/main/java/se/kodsnack/PlayControlFragment.java:132-137 | removing an error callback or a click from anywhere in a sequence does not change the final display |
| CallbackTrace.DisabledUntilPrepared | app/src/main/java/se/kodsnack/PlayControlFragment.java:78-79 | from a freshly laid-out view the button stays disabled through any sequence with no `onPrepared` |

## Left out

- Service binding and the listener lifecycle (`ServiceConnection`, `bindService`/`unbindService`, callback register/unregister, lines 40-63 and 84-91). This is Android framework plumbing.
- Layout inflation and view lookup in `onCreateView` (lines 65-77). The initial title, logo and playing face come from the layout, so they are the `inflated` parameter.
- PlayControl.OnClick: `onClick` dereferences the player service without a null check. A tap before the service connects (or after it disconnects) would throw. The model always returns the toggle request because the connection state is not modelled. `PlayerService` is not part of this model.
- `PlayPauseButton` is not part of this model. Its `setPlaying`/`setEnabled` are taken as plain field writes.
- Callbacks delivered before `onCreateView` has found the views would dereference null views. The model assumes the views exist.
- StatusJson.GetString: a non-string value is modelled as a thrown lookup. The JSON library actually turns every non-null value into text: numbers, booleans, arrays and nested objects. It also turns `JSONObject.NULL` into "null". So a `title` or `server_name` holding any of these is shown by the app, but the model gives a `NotAString` warning.
- AsciiText.Lower: `String.toLowerCase` is locale-sensitive and covers all of Unicode. The model lowercases ASCII capitals only. This changes the logo in one case: Java lowercases the Kelvin sign (U+212A) to `k`. So a title such as "APPSNAC" followed by a Kelvin sign gets the Appsnack logo in the app and the Kodsnack logo in the model.
- Text is a sequence of Unicode scalar values, while a Java `String` is a sequence of UTF-16 code units. A title holding a lone surrogate cannot be written in the model, and a character outside the Basic Multilingual Plane counts as one character here instead of two. No title the model can express gets a different logo because of this.
- The buffering string comes from a resource lookup. Here it is the opaque `bufferingLabel` argument.
- The warning logged on a failed lookup (`Log.w`) is not modelled. Its trace is kept as the `Warned` outcome, which carries the error.
