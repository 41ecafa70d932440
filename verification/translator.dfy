/**
  The state and the event handlers of the translator panel, each handler
  one atomic transition over an immutable state record. The network call
  of the translate handler is split in two: the handler itself only decides
  whether to issue a request and builds it; the arrival of the response is a
  transition of its own that stores the supplied text.
 */
module Translator {
  import opened JsString

  datatype Option<T> = None | Some(value: T)

  /** Which of the two language boxes the next pick from the overlay is for:
      the `'from'` and `'to'` tags the panel passes to the click handler. */
  datatype Role = From | To

  datatype State = State(
    languageFrom: string,      // source language display name
    languageTo: string,        // target language display name
    showLanguages: bool,       // language overlay visible
    selection: Option<Role>,   // pending selector role; None until the first click
    inputText: string,         // text to translate
    translatedText: string,    // last translation shown
    characterCount: nat        // counter shown under the input
  )

  /** An outbound translation request: the raw input text (before URI
      encoding) and the `langpair` query parameter. */
  datatype Request = Request(q: string, langpair: string)

  /** The outcome of a handler: the next state and the request it issues,
      if any. */
  datatype Step = Step(state: State, request: Option<Request>)

  /** The outcome of a key press in the input: the handler's step and
      whether it suppressed the key's default action. */
  datatype KeyOutcome = KeyOutcome(step: Step, defaultPrevented: bool)

  const MaxCharacters: nat := 200

  /** The invariant every reachable state keeps: the counter equals the
      buffer's JavaScript length, which never exceeds the limit, and the
      overlay is only open once a selector role has been chosen. */
  predicate Inv(s: State) {
    && s.characterCount == Utf16Length(s.inputText)
    && s.characterCount <= MaxCharacters
    && (s.showLanguages ==> s.selection.Some?)
  }

  // Frame predicates: the groups of fields a handler may leave untouched.

  predicate SameLanguages(a: State, b: State) {
    a.languageFrom == b.languageFrom && a.languageTo == b.languageTo
  }

  predicate SameOverlay(a: State, b: State) {
    a.showLanguages == b.showLanguages && a.selection == b.selection
  }

  predicate SameBuffer(a: State, b: State) {
    a.inputText == b.inputText && a.characterCount == b.characterCount
  }

  predicate SameResult(a: State, b: State) {
    a.translatedText == b.translatedText
  }

  /** The state at mount. */
  function Init(): (s: State)
    ensures Inv(s)
    ensures s.languageFrom == "English" && s.languageTo == "Turkish"
    ensures !s.showLanguages && s.selection == None
    ensures s.inputText == "" && s.translatedText == "" && s.characterCount == 0
  {
    State("English", "Turkish", false, None, "", "", 0)
  }

  /** A mouse-down anywhere in the document. The listener is attached only
      while the overlay is open, and then closes the overlay unless the
      target lies inside it. */
  function ClickOutside(s: State, insideDropdown: bool): (r: State)
    ensures r.showLanguages <==> s.showLanguages && insideDropdown
    ensures r.selection == s.selection
    ensures SameLanguages(r, s) && SameBuffer(r, s) && SameResult(r, s)
    ensures insideDropdown ==> r == s
  {
    if s.showLanguages && !insideDropdown then s.(showLanguages := false) else s
  }

  /** A click on one of the two language boxes opens the overlay for it. */
  function LanguageClick(s: State, role: Role): (r: State)
    ensures r.selection == Some(role) && r.showLanguages
    ensures SameLanguages(r, s) && SameBuffer(r, s) && SameResult(r, s)
  {
    s.(selection := Some(role), showLanguages := true)
  }

  /** A pick from the overlay sets the source language when the pending role
      is `'from'` and the target language otherwise (also when no role was
      ever chosen), then closes the overlay. The role itself is kept. */
  function LanguageSelect(s: State, language: string): (r: State)
    ensures !r.showLanguages
    ensures r.selection == s.selection
    ensures s.selection == Some(From) ==>
      r.languageFrom == language && r.languageTo == s.languageTo
    ensures s.selection != Some(From) ==>
      r.languageTo == language && r.languageFrom == s.languageFrom
    ensures SameBuffer(r, s) && SameResult(r, s)
  {
    if s.selection == Some(From) then
      s.(languageFrom := language, showLanguages := false)
    else
      s.(languageTo := language, showLanguages := false)
  }

  /** The swap icon exchanges the two languages and nothing else. */
  function Swap(s: State): (r: State)
    ensures r.languageFrom == s.languageTo && r.languageTo == s.languageFrom
    ensures SameOverlay(r, s) && SameBuffer(r, s) && SameResult(r, s)
  {
    s.(languageFrom := s.languageTo, languageTo := s.languageFrom)
  }

  /** An edit of the input proposes `value` as the new buffer. It is taken,
      with the counter set to its JavaScript length, when that length is
      within the limit; otherwise the whole state stays as it was. */
  function InputChange(s: State, value: string): (r: State)
    ensures Utf16Length(value) <= MaxCharacters ==>
      r.inputText == value && r.characterCount == Utf16Length(value)
    ensures Utf16Length(value) > MaxCharacters ==> r == s
    ensures SameLanguages(r, s) && SameOverlay(r, s) && SameResult(r, s)
  {
    var n := Utf16Length(value);
    if n <= MaxCharacters then s.(inputText := value, characterCount := n) else s
  }

  /** The `langpair` query parameter: the two display names joined by a bar. */
  function Langpair(from: string, to: string): (p: string)
    ensures |p| == |from| + 1 + |to|
    ensures p[..|from|] == from && p[|from|] == '|' && p[|from| + 1..] == to
  {
    from + "|" + to
  }

  /** The decision part of the translate handler. A blank input (empty once
      trimmed) clears the result and issues nothing. Otherwise exactly one
      request is issued, carrying the untrimmed input and the languages of
      the current state, and the state itself is not changed. */
  function Translate(s: State): (r: Step)
    ensures r.request.None? <==> IsBlank(s.inputText)
    ensures r.request.None? ==> r.state == s.(translatedText := "")
    ensures r.request.Some? ==> r.state == s
    ensures r.request.Some? ==>
      r.request.value.q == s.inputText
      && r.request.value.langpair == Langpair(s.languageFrom, s.languageTo)
  {
    TrimEmptyIffBlank(s.inputText);
    if Trim(s.inputText) == [] then
      Step(s.(translatedText := ""), None)
    else
      Step(s, Some(Request(s.inputText, Langpair(s.languageFrom, s.languageTo))))
  }

  /** The arrival of the response to an issued request: its translated text
      replaces the result, and nothing else changes. */
  function ResponseReceived(s: State, translated: string): (r: State)
    ensures r.translatedText == translated
    ensures SameLanguages(r, s) && SameOverlay(r, s) && SameBuffer(r, s)
  {
    s.(translatedText := translated)
  }

  /** A key press in the input. Enter suppresses its default action and
      behaves exactly as the translate button; any other key is left to the
      browser, whose resulting edit arrives as an `InputChange`. */
  function KeyDown(s: State, key: string): (r: KeyOutcome)
    ensures key == "Enter" ==> r.defaultPrevented && r.step == Translate(s)
    ensures key != "Enter" ==> !r.defaultPrevented && r.step == Step(s, None)
  {
    if key == "Enter" then KeyOutcome(Translate(s), true)
    else KeyOutcome(Step(s, None), false)
  }
}
