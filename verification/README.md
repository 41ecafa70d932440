# Translator panel state machine

A Dafny model of the `TranslatorApp` React component of Translator-App-React.
The component's event handlers form a small state machine over seven pieces
of state: the source and target language names, whether the language overlay
is open, which selector role (`'from'` or `'to'`) a pick applies to, the input
buffer, its character counter, and the translated text. Each handler is one
pure transition over an immutable `State` record.

- `js_string.dfy` (module `JsString`): JavaScript's `String.prototype.trim`
  (with the ECMAScript WhiteSpace and LineTerminator characters) and
  `String.prototype.length` (UTF-16 code units, so a character outside the
  Basic Multilingual Plane counts twice).
- `translator.dfy` (module `Translator`): the state, the invariant
  `characterCount == length(inputText) <= 200` (plus "the overlay is open only
  once a role has been chosen"), and one function per handler. Translate is
  split into its decision part, which clears the result or builds a
  `Request(q, langpair)`, and a separate `ResponseReceived` transition that
  stores a supplied text.
- `session.dfy` (module `Session`): events, one-event dispatch, and runs as
  folds over event sequences. It proves that the invariant holds in every
  reachable state and that every issued request is non-blank and within the
  limit.
- `properties.dfy` (module `Properties`): lemmas that relate several calls:
  swap is an involution, the keystroke at the limit is rejected, the
  `langpair` parameter determines both names when the source names contain
  no bar, and the requests and scenarios that follow from them.

Facts about the code that the model keeps:

- A pick stores whatever name it is given. Nothing checks that it is
  non-empty or differs from the other language, and the model allows any
  string.
- The 200-character limit and the counter use JavaScript's `length`, which
  counts UTF-16 code units, not characters. The model counts code units too
  (`Utf16Length`): a character outside the Basic Multilingual Plane counts 2.
- After a pick, the selector role is kept and never reset to "none". The
  model keeps it too.
- The code has no error path for a failed request. A failure that throws
  (`fetch` rejecting on a network error, `response.json()` rejecting, or a
  null `responseData`, which throws at line 70 before the result is
  written) leaves the state as it was: in the model that is a response
  event that never arrives.
  `fetch` does not reject on an HTTP error status, so any reply that parses
  reaches line 70 and is a `Response` event carrying whatever string it
  holds; a reply without `translatedText` stores `undefined`, which the
  panel shows as empty, and acts like `Response("")`.

## Model

| member | source | states |
|---|---|---|
| JsString.TrimStart | translator-app/src/components/TranslatorApp.jsx:61 | the leading-trim half of `trim()`: result is a suffix of the input, every dropped character is white space, and the kept part does not start with white space |
| JsString.TrimEnd | translator-app/src/components/TranslatorApp.jsx:61 | the trailing-trim half of `trim()`: result is a prefix, every dropped character is white space, and the kept part does not end with white space |
| JsString.Trim | translator-app/src/components/TranslatorApp.jsx:61 | `trim()` returns a contiguous slice of the input with only white space before and after it, and the slice neither starts nor ends with white space |
| JsString.TrimEmptyIffBlank | translator-app/src/components/TranslatorApp.jsx:61 | `!inputText.trim()` holds exactly when every character of the input is white space (both directions) |
| JsString.TrimIdempotent | translator-app/src/components/TranslatorApp.jsx:61 | trimming an already trimmed string changes nothing |
| JsString.Utf16Length | translator-app/src/components/TranslatorApp.jsx:54-56 | `value.length` is between the character count and twice it, and equals the character count exactly when every character is in the Basic Multilingual Plane |
| JsString.Utf16LengthAppend | translator-app/src/components/TranslatorApp.jsx:54 | the length of a concatenation is the sum of the lengths, so appending a keystroke never shortens the text |
| Translator.Init | translator-app/src/components/TranslatorApp.jsx:5-12 | the mount state is English to Turkish, overlay hidden, no role, empty input and result, counter 0, and it satisfies the invariant |
| Translator.ClickOutside | translator-app/src/components/TranslatorApp.jsx:15-31 | a mouse-down leaves the overlay open only if it was open and the target is inside the dropdown; a click inside changes nothing; no other field changes |
| Translator.LanguageClick | translator-app/src/components/TranslatorApp.jsx:33-36 | opening a selector sets the role and shows the overlay; languages, buffer and result are unchanged |
| Translator.LanguageSelect | translator-app/src/components/TranslatorApp.jsx:38-45 | with role `'from'` only the source language becomes the pick; with any other role, including none, only the target does; the overlay is always closed; buffer, result and role are unchanged |
| Translator.Swap | translator-app/src/components/TranslatorApp.jsx:47-50 | source and target are exchanged and nothing else changes |
| Translator.InputChange | translator-app/src/components/TranslatorApp.jsx:52-58 | a candidate of length at most 200 becomes the buffer and its length the counter; a longer one leaves the whole state unchanged |
| Translator.Langpair | translator-app/src/components/TranslatorApp.jsx:67 | the `langpair` parameter is the source name, one bar, then the target name |
| Translator.Translate | translator-app/src/components/TranslatorApp.jsx:60-70 | no request exactly when the input is blank, and then the result is cleared; otherwise one request with the untrimmed input and the current pair, and the state is unchanged |
| Translator.ResponseReceived | translator-app/src/components/TranslatorApp.jsx:70 | the response text replaces the result; languages, overlay and buffer are unchanged |
| Translator.KeyDown | translator-app/src/components/TranslatorApp.jsx:73-78 | Enter prevents the default action and behaves exactly like the translate trigger; any other key changes nothing and issues nothing |
| Session.Apply | translator-app/src/components/TranslatorApp.jsx:27-78 | every handler keeps the invariant; only translate and Enter issue requests, and those are well formed; only a response can set the result to anything other than itself or "" |
| Session.Run | translator-app/src/components/TranslatorApp.jsx:27-78 | a run of events from a valid state ends in a valid state, issues at most one request per event, and every request is non-blank, within the limit, and carries a bar-separated pair |
| Session.ReachableStatesKeepInv | translator-app/src/components/TranslatorApp.jsx:5-58 | every state reachable from mount satisfies `characterCount == length(inputText) <= 200` |
| Session.NoResponseKeepsResult | translator-app/src/components/TranslatorApp.jsx:60-70 | issuing requests never writes the result: without responses it stays what it was or is cleared by a blank translate |
| Session.NoEditKeepsBuffer | translator-app/src/components/TranslatorApp.jsx:52-58 | only input edits change the buffer and counter |
| Session.NoPickKeepsLanguages | translator-app/src/components/TranslatorApp.jsx:38-50 | only a pick or a swap changes the languages: a run with neither keeps both names |
| Properties.SwapInvolution | translator-app/src/components/TranslatorApp.jsx:47-50 | swapping twice restores the original state |
| Properties.OpenThenPick | translator-app/src/components/TranslatorApp.jsx:33-45 | opening the selector for a role and picking sets that role's language, leaves the other one alone, and closes the overlay |
| Properties.KeystrokeAtLimitRejected | translator-app/src/components/TranslatorApp.jsx:52-58 | with the buffer at 200, appending any character is rejected and the state is unchanged |
| Properties.EditUndo | translator-app/src/components/TranslatorApp.jsx:52-58 | editing back to the previous text restores the previous state |
| Properties.CounterCountsCharacters | translator-app/src/components/TranslatorApp.jsx:12 | in a valid state the buffer has at most 200 characters, and for Basic Multilingual Plane text the counter is its character count |
| Properties.LangpairInjective | translator-app/src/components/TranslatorApp.jsx:67 | when the source names contain no bar, equal `langpair` values come from equal name pairs |
| Properties.SwapAfterRequest | translator-app/src/components/TranslatorApp.jsx:47-50 | translate, swap, translate again: the second request carries the same text and the reversed language pair |
| Properties.HelloScenario | translator-app/src/components/TranslatorApp.jsx:60-70 | "hello" from English to Turkish issues `q=hello`, `langpair=English|Turkish`, and the response "merhaba" becomes the result |
| Properties.BlankClearsResult | translator-app/src/components/TranslatorApp.jsx:61-64 | an input of spaces, tabs and newlines clears the result and issues nothing |

## Left out

- The `fetch` call, `response.json()` and the `data.responseData.translatedText` access are network I/O with an external response format. The request is an abstract record, and the response is a string passed to `ResponseReceived`.
- A failed request is not modelled as its own event. Failures that throw leave the state as it was, the same as a response that never arrives; a parsed reply of any status is a `Response` event, and one without `translatedText` acts like `Response("")` (the stored `undefined` itself is not represented).
- A JavaScript string is a sequence of UTF-16 code units and may hold an unpaired surrogate, which counts 1 toward `length`. A Dafny `char` is a Unicode scalar value, so text holding an unpaired surrogate cannot be represented.
- Responses are not matched to requests: a run accepts a `Response` event with no request outstanding, or several per request. Likewise a run accepts a `LanguagePick` while the overlay is closed, although the list items exist only while it is open (lines 96-113). Both over-approximate the panel, so the properties proved over runs still hold for it.
- `encodeURIComponent` is left out. The request's `q` is the raw input text, before percent-encoding. The request's `langpair` is the string the code interpolates into the URL at line 67; the names are not encoded there, so a name holding `&`, `#`, `+` or `%` would not reach the server as that string.
- The `useEffect` listener registration and the `useRef`/`contains` test are DOM plumbing. They are reduced to the guard "overlay open and target outside the dropdown", with the target's position passed in as a boolean.
- Left out as presentation: JSX rendering, CSS classes, the `onClose` close button, and the `|| 'English'` / `|| 'Turkish'` display fallbacks.
- The language catalog comes from `languagesData`, which is not part of this model. Picked names are arbitrary strings.
- Two requests in flight at once, and React's asynchronous batching of state updates, are concurrency. A run processes one event at a time, and each response is its own event.
